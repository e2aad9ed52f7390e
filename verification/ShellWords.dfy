/**
 * The two tokenisers of the start-script analyser: the quote-aware one that follows
 * `sh -c`, and the plain split on sh's separators. The independent reference for the
 * first is a grammar of command lines (Layout), which it must invert.
 */
module ShellWords {
  import opened Text

  /** sh's default separators, and nothing else: U+00A0 and its kin are ordinary characters. */
  predicate IsBlank(c: char) {
    c == ' ' || c == '\t' || c == '\n'
  }

  predicate IsQuote(c: char) {
    c == '"' || c == '\''
  }

  // ---------- The tokeniser as a state machine ----------

  datatype Lexer = Lexer(tokens: seq<string>, current: string, quote: Option<char>, open: bool)

  const START := Lexer([], "", None, false)

  function Step(st: Lexer, c: char): Lexer {
    if st.quote.Some? then
      if c == st.quote.value then st.(quote := None) else st.(current := st.current + [c])
    else if IsQuote(c) then st.(quote := Some(c), open := true)
    else if IsBlank(c) then Lexer(Flush(st), "", None, false)
    else st.(current := st.current + [c], open := true)
  }

  function Flush(st: Lexer): seq<string> {
    if st.open then st.tokens + [st.current] else st.tokens
  }

  function Scan(st: Lexer, s: string): Lexer
    decreases |s|
  {
    if s == "" then st else Scan(Step(st, s[0]), s[1..])
  }

  /** The words `sh -c` would hand to the program, as the analyser computes them. */
  function Tokens(script: string): seq<string> {
    Flush(Scan(START, script))
  }

  predicate Unterminated(script: string) {
    Scan(START, script).quote.Some?
  }

  method ShellTokens(script: string) returns (tokens: seq<string>)
    ensures tokens == Tokens(script)
  {
    tokens := [];
    var current, quote, open := "", None, false;
    for i := 0 to |script|
      invariant Scan(Lexer(tokens, current, quote, open), script[i..]) == Scan(START, script)
    {
      var c := script[i];
      ghost var before := Lexer(tokens, current, quote, open);
      assert script[i..][1..] == script[i + 1..];
      if quote.Some? {
        if c == quote.value {
          quote := None;
        } else {
          current := current + [c];
        }
      } else if IsQuote(c) {
        quote := Some(c);
        open := true;
      } else if IsBlank(c) {
        if open {
          tokens := tokens + [current];
        }
        current := "";
        open := false;
      } else {
        current := current + [c];
        open := true;
      }
      assert Lexer(tokens, current, quote, open) == Step(before, c);
    }
    if open {
      tokens := tokens + [current];
    }
  }

  method HasUnterminatedQuote(script: string) returns (unterminated: bool)
    ensures unterminated == Unterminated(script)
  {
    var quote: Option<char> := None;
    ghost var st := START;
    for i := 0 to |script|
      invariant st.quote == quote
      invariant Scan(st, script[i..]) == Scan(START, script)
    {
      var c := script[i];
      assert script[i..][1..] == script[i + 1..];
      st := Step(st, c);
      if quote.Some? {
        if c == quote.value {
          quote := None;
        }
      } else if IsQuote(c) {
        quote := Some(c);
      }
    }
    unterminated := quote.Some?;
  }

  lemma {:induction false} ScanAppend(st: Lexer, a: string, b: string)
    ensures Scan(st, a + b) == Scan(Scan(st, a), b)
    decreases |a|
  {
    if a == "" {
      assert a + b == b;
    } else {
      assert (a + b)[1..] == a[1..] + b;
      ScanAppend(Step(st, a[0]), a[1..], b);
    }
  }

  // ---------- The grammar of command lines ----------

  /** A stretch of a word: bare text, or text between two quotes of one kind (maybe empty). */
  datatype Piece = Bare(text: string) | Quoted(mark: char, text: string)

  /** Leading blanks, then words, each with the blanks that follow it. */
  datatype Layout = Layout(lead: string, words: seq<(seq<Piece>, string)>)

  predicate ValidPiece(p: Piece) {
    match p
    case Bare(text) => text != "" && forall c | c in text :: !IsQuote(c) && !IsBlank(c)
    case Quoted(mark, text) => IsQuote(mark) && mark !in text
  }

  predicate Blanks(s: string) {
    forall c | c in s :: IsBlank(c)
  }

  /** Two words are told apart by at least one blank; the last may end the line. */
  predicate ValidWords(words: seq<(seq<Piece>, string)>) {
    && (forall i | 0 <= i < |words| ::
          && words[i].0 != []
          && (forall p | p in words[i].0 :: ValidPiece(p))
          && Blanks(words[i].1))
    && (forall i | 0 <= i < |words| - 1 :: words[i].1 != "")
  }

  predicate ValidLayout(l: Layout) {
    Blanks(l.lead) && ValidWords(l.words)
  }

  function RenderPiece(p: Piece): string {
    match p
    case Bare(text) => text
    case Quoted(mark, text) => [mark] + text + [mark]
  }

  function RenderPieces(ps: seq<Piece>): string {
    if ps == [] then "" else RenderPiece(ps[0]) + RenderPieces(ps[1..])
  }

  function RenderWords(words: seq<(seq<Piece>, string)>): string {
    if words == [] then "" else RenderPieces(words[0].0) + words[0].1 + RenderWords(words[1..])
  }

  function Render(l: Layout): string {
    l.lead + RenderWords(l.words)
  }

  /** The word a run of pieces denotes: its text with the quoting marks gone. */
  function Meaning(ps: seq<Piece>): string {
    if ps == [] then "" else ps[0].text + Meaning(ps[1..])
  }

  function Meanings(words: seq<(seq<Piece>, string)>): seq<string> {
    if words == [] then [] else [Meaning(words[0].0)] + Meanings(words[1..])
  }

  lemma {:induction false} ScanQuoted(st: Lexer, text: string)
    requires st.quote.Some? && st.quote.value !in text
    ensures Scan(st, text) == st.(current := st.current + text)
    decreases |text|
  {
    if text == "" {
      assert st.current + text == st.current;
    } else {
      ScanQuoted(st.(current := st.current + [text[0]]), text[1..]);
      assert st.current + [text[0]] + text[1..] == st.current + text;
    }
  }

  lemma {:induction false} ScanBare(st: Lexer, text: string)
    requires st.quote.None? && forall c | c in text :: !IsQuote(c) && !IsBlank(c)
    ensures Scan(st, text) == st.(current := st.current + text, open := st.open || text != "")
    decreases |text|
  {
    if text == "" {
      assert st.current + text == st.current;
    } else {
      ScanBare(st.(current := st.current + [text[0]], open := true), text[1..]);
      assert st.current + [text[0]] + text[1..] == st.current + text;
    }
  }

  lemma {:induction false} ScanBlanks(st: Lexer, blanks: string)
    requires st.quote.None? && Blanks(blanks) && blanks != ""
    ensures Scan(st, blanks) == Lexer(Flush(st), "", None, false)
    decreases |blanks|
  {
    var next := Step(st, blanks[0]);
    assert Flush(next) == Flush(st);
    if |blanks| > 1 {
      ScanBlanks(next, blanks[1..]);
    }
  }

  lemma ScanPiece(st: Lexer, p: Piece)
    requires st.quote.None? && ValidPiece(p)
    ensures Scan(st, RenderPiece(p)) == st.(current := st.current + p.text, open := true)
  {
    match p
    case Bare(text) => ScanBare(st, text);
    case Quoted(mark, text) =>
      var inside := Step(st, mark);
      assert RenderPiece(p) == [mark] + (text + [mark]);
      ScanAppend(st, [mark], text + [mark]);
      ScanAppend(inside, text, [mark]);
      ScanQuoted(inside, text);
  }

  lemma Glued(a: string, b: string, c: string)
    ensures a + b + c == a + (b + c)
  {
  }

  lemma {:induction false} ScanPieces(st: Lexer, ps: seq<Piece>)
    requires st.quote.None? && forall p | p in ps :: ValidPiece(p)
    ensures Scan(st, RenderPieces(ps))
         == st.(current := st.current + Meaning(ps), open := st.open || ps != [])
    decreases |ps|
  {
    if ps == [] {
      assert st.current + Meaning(ps) == st.current;
    } else {
      var p, rest := ps[0], ps[1..];
      assert p in ps;
      ScanPiece(st, p);
      ScanAppend(st, RenderPiece(p), RenderPieces(rest));
      ScanPieces(st.(current := st.current + p.text, open := true), rest);
      Glued(st.current, p.text, Meaning(rest));
    }
  }

  /** One word and the blanks after it: the word is flushed, and the lexer is ready for the next. */
  lemma ScanWord(st: Lexer, ps: seq<Piece>, gap: string)
    requires st.quote.None? && !st.open && st.current == ""
    requires ps != [] && (forall p | p in ps :: ValidPiece(p)) && Blanks(gap)
    ensures var end := Scan(st, RenderPieces(ps) + gap);
            && end.quote.None? && Flush(end) == st.tokens + [Meaning(ps)]
            && (gap != "" ==> !end.open && end.current == "")
  {
    ScanAppend(st, RenderPieces(ps), gap);
    ScanPieces(st, ps);
    assert st.current + Meaning(ps) == Meaning(ps);
    if gap != "" {
      ScanBlanks(Scan(st, RenderPieces(ps)), gap);
    }
  }

  lemma {:induction false} ScanWords(st: Lexer, words: seq<(seq<Piece>, string)>)
    requires st.quote.None? && !st.open && st.current == "" && ValidWords(words)
    ensures var end := Scan(st, RenderWords(words));
            end.quote.None? && Flush(end) == st.tokens + Meanings(words)
    decreases |words|
  {
    if words == [] {
      assert st.tokens + Meanings(words) == st.tokens;
    } else {
      var ps, gap, rest := words[0].0, words[0].1, words[1..];
      ScanWord(st, ps, gap);
      ScanAppend(st, RenderPieces(ps) + gap, RenderWords(rest));
      MeaningsHead(st.tokens, words);
      var next := Scan(st, RenderPieces(ps) + gap);
      if rest != [] {
        ValidTail(words);
        assert next.tokens == Flush(next);
        ScanWords(next, rest);
      }
    }
  }

  lemma MeaningsHead(done: seq<string>, words: seq<(seq<Piece>, string)>)
    requires words != []
    ensures done + [Meaning(words[0].0)] + Meanings(words[1..]) == done + Meanings(words)
  {
  }

  lemma ValidTail(words: seq<(seq<Piece>, string)>)
    requires |words| >= 2 && ValidWords(words)
    ensures ValidWords(words[1..]) && words[0].1 != ""
  {
  }

  /** Tokenising a command line written in the grammar gives back exactly its words. */
  lemma TokensOfLayout(l: Layout)
    requires ValidLayout(l)
    ensures Tokens(Render(l)) == Meanings(l.words)
    ensures !Unterminated(Render(l))
  {
    ScanAppend(START, l.lead, RenderWords(l.words));
    if l.lead != "" {
      ScanBlanks(START, l.lead);
    }
    ScanWords(START, l.words);
  }

  /** The layout of a line whose first piece has been read, given the layout of the rest. */
  function Prepend(p: Piece, l: Layout): Layout {
    if l.lead == "" && l.words != [] then
      Layout("", [([p] + l.words[0].0, l.words[0].1)] + l.words[1..])
    else Layout("", [([p], l.lead)] + l.words)
  }

  lemma RenderFirst(p: Piece, ps: seq<Piece>)
    ensures RenderPieces([p] + ps) == RenderPiece(p) + RenderPieces(ps)
  {
  }

  lemma RenderHead(ps: seq<Piece>, gap: string, rest: seq<(seq<Piece>, string)>)
    ensures RenderWords([(ps, gap)] + rest) == RenderPieces(ps) + gap + RenderWords(rest)
  {
  }

  lemma PrependInto(p: Piece, ps: seq<Piece>, gap: string, rest: seq<(seq<Piece>, string)>)
    ensures RenderWords([([p] + ps, gap)] + rest) == RenderPiece(p) + RenderWords([(ps, gap)] + rest)
  {
  }

  lemma PrependBefore(p: Piece, lead: string, words: seq<(seq<Piece>, string)>)
    ensures RenderWords([([p], lead)] + words) == RenderPiece(p) + (lead + RenderWords(words))
  {
    assert [p] + [] == [p];
    RenderFirst(p, []);
    RenderHead([p], lead, words);
    var a, c := RenderPiece(p), RenderWords(words);
    assert a + "" + lead + c == a + (lead + c);
  }

  lemma PrependRenders(p: Piece, l: Layout)
    requires ValidPiece(p) && ValidLayout(l)
    ensures Render(Prepend(p, l)) == RenderPiece(p) + Render(l)
  {
    var r := Prepend(p, l);
    assert Render(r) == RenderWords(r.words);
    if l.lead == "" && l.words != [] {
      assert l.words == [(l.words[0].0, l.words[0].1)] + l.words[1..] && Render(l) == RenderWords(l.words);
      PrependInto(p, l.words[0].0, l.words[0].1, l.words[1..]);
    } else {
      PrependBefore(p, l.lead, l.words);
    }
  }

  lemma PrependValid(p: Piece, l: Layout)
    requires ValidPiece(p) && ValidLayout(l)
    ensures ValidLayout(Prepend(p, l))
  {
  }

  /** Where the quote that opens with `mark` closes. */
  lemma {:induction false} ClosingQuote(st: Lexer, s: string) returns (k: nat)
    requires st.quote.Some? && Scan(st, s).quote.None?
    ensures k < |s| && s[k] == st.quote.value && st.quote.value !in s[..k]
    ensures Scan(st.(current := st.current + s[..k], quote := None), s[k + 1..]) == Scan(st, s)
    decreases |s|
  {
    if s[0] == st.quote.value {
      k := 0;
      assert st.current + s[..0] == st.current;
    } else {
      var j := ClosingQuote(Step(st, s[0]), s[1..]);
      k := j + 1;
      assert s[..k] == [s[0]] + s[1..][..j];
      assert st.current + [s[0]] + s[1..][..j] == st.current + s[..k];
      assert s[1..][j + 1..] == s[k + 1..];
    }
  }

  /** A layout for a blank, bare character or quoted stretch followed by what `rest` lays out. */
  lemma LayoutBefore(p: Piece, rest: Layout) returns (l: Layout)
    requires ValidLayout(rest)
    requires ValidPiece(p) || (p.Bare? && Blanks(p.text))
    ensures ValidLayout(l) && Render(l) == RenderPiece(p) + Render(rest)
  {
    if ValidPiece(p) {
      PrependRenders(p, rest);
      PrependValid(p, rest);
      l := Prepend(p, rest);
    } else {
      l := Layout(p.text + rest.lead, rest.words);
      Glued(p.text, rest.lead, RenderWords(rest.words));
    }
  }

  lemma CutAtQuote(s: string, k: nat)
    requires k + 1 < |s| && s[k + 1] == s[0]
    ensures var tail := s[1..]; s == [s[0]] + tail[..k] + [s[0]] + tail[k + 1..]
  {
  }

  /** Every line with its quotes closed was written by the grammar. */
  lemma {:induction false} LayoutOf(st: Lexer, s: string) returns (l: Layout)
    requires st.quote.None? && Scan(st, s).quote.None?
    ensures ValidLayout(l) && Render(l) == s
    decreases |s|
  {
    if s == "" {
      l := Layout("", []);
    } else if IsQuote(s[0]) {
      var tail := s[1..];
      var inside := Step(st, s[0]);
      var k := ClosingQuote(inside, tail);
      var rest := LayoutOf(inside.(current := inside.current + tail[..k], quote := None), tail[k + 1..]);
      l := LayoutBefore(Quoted(s[0], tail[..k]), rest);
      CutAtQuote(s, k);
    } else {
      var rest := LayoutOf(Step(st, s[0]), s[1..]);
      l := LayoutBefore(Bare([s[0]]), rest);
    }
  }

  /** A quote is left open exactly on the strings the grammar cannot write. */
  lemma UnterminatedIffNoLayout(s: string)
    ensures !Unterminated(s) <==> exists l :: ValidLayout(l) && Render(l) == s
  {
    if !Unterminated(s) {
      var l := LayoutOf(START, s);
    }
    forall l | ValidLayout(l) && Render(l) == s ensures !Unterminated(s) {
      TokensOfLayout(l);
    }
  }

  // ---------- The plain split, and where the two agree ----------

  /** script.split(/[ \t\n]+/).filter(Boolean): the maximal blank-free runs. */
  function RawTokens(s: string): seq<string> {
    RawScan([], "", s)
  }

  function RawScan(done: seq<string>, current: string, s: string): seq<string>
    decreases |s|
  {
    var flushed := if current == "" then done else done + [current];
    if s == "" then flushed
    else if IsBlank(s[0]) then RawScan(flushed, "", s[1..])
    else RawScan(done, current + [s[0]], s[1..])
  }

  /** No blank stands inside a quoted stretch. */
  predicate QuotesHoldNoBlank(quote: Option<char>, s: string)
    decreases |s|
  {
    s == "" ||
    match quote
    case None => QuotesHoldNoBlank(if IsQuote(s[0]) then Some(s[0]) else None, s[1..])
    case Some(q) =>
      if s[0] == q then QuotesHoldNoBlank(None, s[1..])
      else !IsBlank(s[0]) && QuotesHoldNoBlank(quote, s[1..])
  }

  /** What sh makes of one blank-free token. */
  function Dequote(raw: string): string {
    Scan(START, raw).current
  }

  predicate Balanced(raw: string) {
    Scan(START, raw).quote.None?
  }

  function DequoteAll(raw: seq<string>): seq<string> {
    seq(|raw|, i requires 0 <= i < |raw| => Dequote(raw[i]))
  }

  lemma StepNonBlank(a: Lexer, b: Lexer, c: char)
    requires a.current == b.current && a.quote == b.quote && a.open == b.open
    requires a.quote.Some? || !IsBlank(c)
    ensures Step(a, c) == Step(b, c).(tokens := a.tokens)
  {
  }

  lemma DequoteAllAppend(raw: seq<string>, t: string)
    ensures DequoteAll(raw + [t]) == DequoteAll(raw) + [Dequote(t)]
  {
  }

  lemma {:induction false} SplitsAgreeFrom(st: Lexer, done: seq<string>, current: string, s: string)
    requires st == Scan(START, current).(tokens := DequoteAll(done))
    requires Scan(START, current).tokens == []
    requires st.open <==> current != ""
    requires st.quote.Some? ==> IsQuote(st.quote.value)
    requires forall t | t in done :: Balanced(t)
    requires QuotesHoldNoBlank(st.quote, s) && Scan(st, s).quote.None?
    ensures Flush(Scan(st, s)) == DequoteAll(RawScan(done, current, s))
    ensures forall t | t in RawScan(done, current, s) :: Balanced(t)
    decreases |s|
  {
    DequoteAllAppend(done, current);
    if s == "" {
    } else if st.quote.None? && IsBlank(s[0]) {
      var flushed := if current == "" then done else done + [current];
      assert Flush(st) == DequoteAll(flushed);
      SplitsAgreeFrom(Step(st, s[0]), flushed, "", s[1..]);
    } else {
      ScanAppend(START, current, [s[0]]);
      StepNonBlank(st, Scan(START, current), s[0]);
      SplitsAgreeFrom(Step(st, s[0]), done, current + [s[0]], s[1..]);
    }
  }

  /**
   * The plain split never makes fewer words of a line than sh does, counting the word under
   * way on both sides; and it makes more once a quote holds a blank.
   */
  lemma {:induction false} RawSplitsMore(st: Lexer, done: seq<string>, current: string, s: string)
    requires if st.quote.None? then st.open <==> current != "" else st.open && IsQuote(st.quote.value)
    requires Scan(st, s).quote.None?
    ensures var ahead := |done| + (if current == "" then 0 else 1) - |Flush(st)|;
            var split := (st.quote.Some? && current == "") || !QuotesHoldNoBlank(st.quote, s);
            |RawScan(done, current, s)| - |Flush(Scan(st, s))| >= ahead + if split then 1 else 0
    decreases |s|
  {
    if s != "" {
      var next := Step(st, s[0]);
      if IsBlank(s[0]) {
        var flushed := if current == "" then done else done + [current];
        RawSplitsMore(next, flushed, "", s[1..]);
      } else {
        RawSplitsMore(next, done, current + [s[0]], s[1..]);
      }
    }
  }

  /** With quotes closed, the two tokenisers see the same words exactly when no quote holds a blank. */
  lemma SplitsAgree(s: string)
    requires !Unterminated(s)
    ensures Tokens(s) == DequoteAll(RawTokens(s)) <==> QuotesHoldNoBlank(None, s)
    ensures QuotesHoldNoBlank(None, s) ==> forall t | t in RawTokens(s) :: Balanced(t)
  {
    if QuotesHoldNoBlank(None, s) {
      SplitsAgreeFrom(START, [], "", s);
    } else {
      RawSplitsMore(START, [], "", s);
    }
  }

  // ---------- One token: what stripping its outer quotes tells ----------

  /** token.replace(/^["']|["']$/g, ""). */
  function Unquote(token: string): string {
    var t := if token != "" && IsQuote(token[0]) then token[1..] else token;
    if t != "" && IsQuote(t[|t| - 1]) then t[..|t| - 1] else t
  }

  predicate QuoteFree(s: string) {
    forall c | c in s :: !IsQuote(c)
  }

  predicate BlankFree(s: string) {
    forall c | c in s :: !IsBlank(c)
  }

  lemma DequotePlain(raw: string)
    requires QuoteFree(raw) && BlankFree(raw)
    ensures Dequote(raw) == raw && Balanced(raw)
  {
    ScanBare(START, raw);
  }

  lemma ScanAfterClosedPrefix(mark: char, body: string, after: string)
    requires IsQuote(mark) && QuoteFree(body)
    ensures Scan(START, [mark] + body + after) == Scan(START.(quote := Some(mark), current := body, open := true), after)
  {
    var inside := Step(START, mark);
    assert [mark] + body + after == [mark] + (body + after);
    ScanAppend(START, [mark], body + after);
    ScanAppend(inside, body, after);
    ScanQuoted(inside, body);
    assert inside.current + body == body;
  }

  /** A balanced token that unquotes to quote-free text is read by sh as that same text. */
  lemma UnquoteIsDequote(raw: string)
    requires Balanced(raw) && BlankFree(raw) && QuoteFree(Unquote(raw))
    ensures Dequote(raw) == Unquote(raw)
  {
    var bare := Unquote(raw);
    var open := raw != "" && IsQuote(raw[0]);
    var t := if open then raw[1..] else raw;
    var closed := t != "" && IsQuote(t[|t| - 1]);
    if open {
      var after := if closed then [t[|t| - 1]] else "";
      assert raw == [raw[0]] + bare + after;
      ScanAfterClosedPrefix(raw[0], bare, after);
    } else if closed {
      assert raw == bare + [t[|t| - 1]];
      ScanAppend(START, bare, [t[|t| - 1]]);
      ScanBare(START, bare);
      assert false;
    } else {
      DequotePlain(raw);
    }
  }

  // ---------- Lines of plain words, the ones the tool itself writes ----------

  /** Blank-free, non-empty tokens joined by single spaces split back into themselves. */
  lemma {:induction false} RawTokensOfJoin(done: seq<string>, ts: seq<string>)
    requires forall t | t in ts :: t != "" && BlankFree(t)
    ensures RawScan(done, "", Join(ts, " ")) == done + ts
    decreases |ts|
  {
    if ts == [] {
      assert done + ts == done;
    } else {
      assert ts[0] in ts && "" + ts[0] == ts[0];
      if |ts| == 1 {
        RawScanToken(done, "", ts[0], "");
        assert ts[0] + "" == ts[0] && [ts[0]] == ts;
      } else {
        var rest := Join(ts[1..], " ");
        assert Join(ts, " ") == ts[0] + (" " + rest);
        RawScanToken(done, "", ts[0], " " + rest);
        RawScanGap(done, ts[0], rest);
        forall t | t in ts[1..] ensures t != "" && BlankFree(t) { assert t in ts; }
        RawTokensOfJoin(done + [ts[0]], ts[1..]);
        assert done + [ts[0]] + ts[1..] == done + ts;
      }
    }
  }

  lemma RawScanGap(done: seq<string>, current: string, rest: string)
    requires current != ""
    ensures RawScan(done, current, " " + rest) == RawScan(done + [current], "", rest)
  {
  }

  lemma {:induction false} RawScanToken(done: seq<string>, current: string, t: string, after: string)
    requires BlankFree(t)
    ensures RawScan(done, current, t + after) == RawScan(done, current + t, after)
    decreases |t|
  {
    if t == "" {
      assert t + after == after && current + t == current;
    } else {
      assert (t + after)[1..] == t[1..] + after;
      RawScanToken(done, current + [t[0]], t[1..], after);
      assert current + [t[0]] + t[1..] == current + t;
    }
  }

  lemma {:induction false} QuoteFreeHoldsNoBlank(s: string)
    requires QuoteFree(s)
    ensures QuotesHoldNoBlank(None, s)
  {
    if s != "" {
      QuoteFreeHoldsNoBlank(s[1..]);
    }
  }

  lemma {:induction false} QuoteFreeTerminates(st: Lexer, s: string)
    requires QuoteFree(s) && st.quote.None?
    ensures Scan(st, s).quote.None?
    decreases |s|
  {
    if s != "" {
      QuoteFreeTerminates(Step(st, s[0]), s[1..]);
    }
  }
}
