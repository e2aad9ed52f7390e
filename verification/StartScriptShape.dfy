/**
 * The analyser's tests written out: which characters, commands, versions and values it takes,
 * each as the text a reader of the scripts would look for; and the server's flags one by one.
 */
module StartScriptShape {
  import opened Text
  import opened ShellWords
  import opened Loopback
  import opened StartScript
  import Soundness = StartScriptSoundness
  import Generated = StartScriptGenerated

  // ---------- Characters ----------

  lemma CharactersListed(c: char)
    ensures IsBlank(c) <==> c in " \t\n"
    ensures IsQuote(c) <==> c in "'\""
    ensures IsChaining(c) <==> c in "&|;<>\n\r"
    ensures IsUnmodelled(c) <==> c in "`$()#\\"
  {
    CharsOfBlank(c);
    CharsOfChaining(c);
    CharsOfUnmodelled(c);
    assert "'\""[0] == '\'' && "'\""[1] == '"';
  }

  lemma CharsOfBlank(c: char)
    ensures c in " \t\n" <==> c == ' ' || c == '\t' || c == '\n'
  {
    var s := " \t\n";
    assert s[0] == ' ' && s[1] == '\t' && s[2] == '\n';
  }

  lemma CharsOfChaining(c: char)
    ensures c in "&|;<>\n\r" <==> c == '&' || c == '|' || c == ';' || c == '<' || c == '>' || c == '\n' || c == '\r'
  {
    var s := "&|;<>\n\r";
    assert s[0] == '&' && s[1] == '|' && s[2] == ';' && s[3] == '<' && s[4] == '>' && s[5] == '\n' && s[6] == '\r';
  }

  lemma CharsOfUnmodelled(c: char)
    ensures c in "`$()#\\" <==> c == '`' || c == '$' || c == '(' || c == ')' || c == '#' || c == '\\'
  {
    var s := "`$()#\\";
    assert s[0] == '`' && s[1] == '$' && s[2] == '(' && s[3] == ')' && s[4] == '#' && s[5] == '\\';
  }

  /** Text between two single quotes, or two double ones, is one word, blanks and all. */
  lemma QuotedIsOneWord(text: string)
    ensures '\'' !in text ==> Tokens("'" + text + "'") == [text]
    ensures '"' !in text ==> Tokens("\"" + text + "\"") == [text]
  {
    if '\'' !in text {
      QuotedWord('\'', text);
      assert "'" + text + "'" == ['\''] + text + ['\''];
    }
    if '"' !in text {
      QuotedWord('"', text);
      assert "\"" + text + "\"" == ['"'] + text + ['"'];
    }
  }

  lemma QuotedWord(mark: char, text: string)
    requires IsQuote(mark) && mark !in text
    ensures Tokens([mark] + text + [mark]) == [text]
  {
    ScanPiece(START, Quoted(mark, text));
    assert RenderPiece(Quoted(mark, text)) == [mark] + text + [mark];
    assert "" + text == text && [] + [text] == [text];
  }

  /** A space, a tab and a line feed part words; no other character does. */
  lemma WhatPartsWords(a: string, sep: char, b: string)
    requires a != "" && b != "" && forall c | c in a || c in b :: c !in " \t\n'\""
    ensures sep in " \t\n" ==> Tokens(a + [sep] + b) == [a, b]
    ensures sep !in " \t\n'\"" ==> Tokens(a + [sep] + b) == [a + [sep] + b]
  {
    forall c | c in a || c in b ensures !IsQuote(c) && !IsBlank(c) { PlainListed(c); }
    CharactersListed(sep);
    if sep in " \t\n" {
      assert a + [sep] + b == a + ([sep] + b);
      ScanAppend(START, a, [sep] + b);
      ScanBare(START, a);
      var st := Scan(START, a);
      assert "" + a == a;
      ScanAppend(st, [sep], b);
      ScanBlanks(st, [sep]);
      var next := Lexer([a], "", None, false);
      assert Flush(st) == [a];
      ScanBare(next, b);
      assert "" + b == b && [a] + [b] == [a, b];
    } else if sep !in " \t\n'\"" {
      PlainListed(sep);
      ScanBare(START, a + [sep] + b);
      assert "" + (a + [sep] + b) == a + [sep] + b;
    }
  }

  lemma PlainListed(c: char)
    ensures c !in " \t\n'\"" <==> !IsBlank(c) && !IsQuote(c)
  {
    var s := " \t\n'\"";
    assert s[0] == ' ' && s[1] == '\t' && s[2] == '\n' && s[3] == '\'' && s[4] == '"';
  }

  /** One quote of either kind goes from each end of a token, and no more. */
  lemma UnquoteTakesOne(t: string, front: string, back: string)
    requires t != "" && front in ["", "'", "\""] && back in ["", "'", "\""]
    requires t[0] !in "'\"" && t[|t| - 1] !in "'\""
    ensures Unquote(front + t + back) == t
  {
    CharactersListed(t[0]);
    CharactersListed(t[|t| - 1]);
    var s := front + t + back;
    if front == "" {
      assert s == t + back;
    } else {
      assert s[1..] == t + back && IsQuote(s[0]);
    }
    if back == "" {
      assert t + back == t;
    } else {
      assert (t + back)[..|t + back| - 1] == t && IsQuote((t + back)[|t|]);
    }
  }

  // ---------- Environment names ----------

  lemma EnvironmentNameIff(name: string)
    ensures ValidEnvironmentName(name) <==>
              && 1 <= |name| <= 255 && name[0] != '.'
              && forall c | c in name :: LetterOrDigit(c) || c in "._-"
  {
    forall c | c in name ensures SafeNameChar(c) <==> LetterOrDigit(c) || c in "._-" {
      assert "._-"[0] == '.' && "._-"[1] == '_' && "._-"[2] == '-';
    }
  }

  // ---------- Versions ----------

  predicate TarballExtension(ext: string) {
    Lower(ext) == ".tgz" || Lower(ext) == ".tar.gz" || Lower(ext) == ".tar"
  }

  lemma EndsWithLower(v: string, ext: string)
    ensures EndsWith(Lower(v), ext) <==> exists name, e :: v == name + e && Lower(e) == ext
  {
    if EndsWith(Lower(v), ext) {
      var k := |v| - |ext|;
      assert v == v[..k] + v[k..] && Lower(v[k..]) == ext;
    }
    if name, e :| v == name + e && Lower(e) == ext {
      assert Lower(v)[|name|..] == Lower(e);
    }
  }

  /** What npm resolves from its registry: letters, digits, dots and dashes, and no tarball of any case. */
  lemma VersionIff(v: string)
    ensures RegistryVersion(v) <==>
              && v != "" && LetterOrDigit(v[0])
              && (forall c | c in v :: LetterOrDigit(c) || c in ".-")
              && !exists name, ext :: v == name + ext && TarballExtension(ext)
  {
    forall c | c in v ensures (Alphanumeric(c) || c == '.' || c == '-') <==> LetterOrDigit(c) || c in ".-" {
      assert ".-"[0] == '.' && ".-"[1] == '-';
    }
    EndsWithLower(v, ".tgz");
    EndsWithLower(v, ".tar.gz");
    EndsWithLower(v, ".tar");
  }

  // ---------- The command ----------

  predicate Runner(ts: seq<string>) {
    || ts == ["npx"] || ts == ["bunx"] || ts == ["pnpx"]
    || ts == ["pnpm", "dlx"] || ts == ["yarn", "dlx"] || ts == ["bun", "x"]
  }

  predicate RunnerFlag(t: string) {
    t == "-y" || t == "--yes" || t == "-q" || t == "--quiet" || t == "--silent"
  }

  ghost predicate ServerPackage(t: string) {
    || t == "@malloy-publisher/server"
    || exists v :: t == "@malloy-publisher/server" + "@" + v && RegistryVersion(v)
  }

  /** A runner, its flags, the server package, and what is left for the server. */
  ghost predicate RunsServer(tokens: seq<string>, runner: seq<string>, flags: seq<string>, spec: string, rest: seq<string>) {
    && tokens == runner + flags + [spec] + rest
    && Runner(runner) && (forall f | f in flags :: RunnerFlag(f)) && ServerPackage(Unquote(spec))
  }

  lemma ServerPackageIff(t: string)
    ensures ServerSpec(t) <==> ServerPackage(t)
  {
    if ServerSpec(t) && t != SPEC {
      assert t == SPEC + "@" + t[|SPEC| + 1..];
    }
    if v :| t == SPEC + "@" + v && RegistryVersion(v) {
      assert t[|SPEC| + 1..] == v && SPEC + "@" <= t;
    }
  }

  lemma RunnerListed(ts: seq<string>)
    ensures ts in SCRIPT_RUNNER_PREFIXES <==> Runner(ts)
  {
    var p := SCRIPT_RUNNER_PREFIXES;
    assert p[0] == ["npx"] && p[1] == ["bunx"] && p[2] == ["pnpx"];
    assert p[3] == ["pnpm", "dlx"] && p[4] == ["yarn", "dlx"] && p[5] == ["bun", "x"];
  }

  predicate HeadsDiffer(prefixes: seq<seq<string>>) {
    && (forall p | p in prefixes :: p != [])
    && forall i, j | 0 <= i < j < |prefixes| :: prefixes[i] != [] && prefixes[j] != [] && prefixes[i][0] != prefixes[j][0]
  }

  lemma {:induction false} PrefixFound(prefixes: seq<seq<string>>, runner: seq<string>, before: seq<string>)
    requires HeadsDiffer(prefixes) && runner in prefixes && runner <= before
    ensures PrefixLength(prefixes, before) == |runner|
  {
    if prefixes[0] != runner {
      var k :| 0 <= k < |prefixes| && prefixes[k] == runner;
      assert prefixes[0][0] != prefixes[k][0] == before[0];
      forall p | p in prefixes[1..] ensures p != [] { assert p in prefixes; }
      PrefixFound(prefixes[1..], runner, before);
    }
  }

  lemma RunnersDiffer()
    ensures HeadsDiffer(SCRIPT_RUNNER_PREFIXES)
  {
    assert "npx" != "bunx" && "npx" != "pnpx" && "npx"[0] != 'y';
    assert "pnpx"[3] != "pnpm"[3] && |"bun"| != |"bunx"|;
  }

  lemma RunnerWordsShort(t: string)
    requires (exists p :: Runner(p) && t in p) || RunnerFlag(t)
    ensures !Contains(t, SPEC)
  {
    if Contains(t, SPEC) {
      Generated.ContainsNeeds(t, SPEC, '@');
      RunnerWordsPlain(t);
    }
  }

  lemma RunnerWordsPlain(t: string)
    requires (exists p :: Runner(p) && t in p) || RunnerFlag(t)
    ensures '@' !in t
  {
  }

  lemma SpecFound(tokens: seq<string>, runner: seq<string>, flags: seq<string>, spec: string, rest: seq<string>)
    requires RunsServer(tokens, runner, flags, spec, rest)
    ensures SpecIndex(tokens) == Some(|runner| + |flags|)
  {
    var i := |runner| + |flags|;
    ServerPackageIff(Unquote(spec));
    Soundness.ServerSpecPlain(Unquote(spec));
    Soundness.UnquoteInside(spec);
    forall j | 0 <= j < i ensures !Contains(tokens[j], SPEC) {
      assert if j < |runner| then tokens[j] == runner[j] && runner[j] in runner
             else tokens[j] == flags[j - |runner|] && flags[j - |runner|] in flags;
      RunnerWordsShort(tokens[j]);
    }
    assert tokens[i] == spec;
    Soundness.FirstAt(tokens, (t: string) => Contains(t, SPEC), i);
  }

  lemma RunnerFlagListed(t: string)
    ensures t in RUNNER_BOOLEAN_FLAGS <==> RunnerFlag(t)
  {
  }

  lemma SingleServerParts(tokens: seq<string>) returns (i: nat, n: nat)
    requires SingleServerTokens(tokens)
    ensures 0 < n <= i < |tokens| && SpecIndex(tokens) == Some(i) && n == RunnerPrefixLength(tokens[..i])
    ensures ServerSpec(Unquote(tokens[i])) && forall t | t in tokens[n..i] :: t in RUNNER_BOOLEAN_FLAGS
  {
    i := SpecIndex(tokens).value;
    n := RunnerPrefixLength(tokens[..i]);
  }

  lemma RunnerAtFront(before: seq<string>)
    requires 0 < RunnerPrefixLength(before) <= |before|
    ensures Runner(before[..RunnerPrefixLength(before)])
  {
    var n := RunnerPrefixLength(before);
    Soundness.PrefixWords(SCRIPT_RUNNER_PREFIXES, before);
    var p :| p in SCRIPT_RUNNER_PREFIXES && p <= before && |p| == n;
    assert p == before[..n];
    RunnerListed(p);
  }

  lemma PartsAreSingleServer(tokens: seq<string>, i: nat, n: nat)
    requires 0 < n <= i < |tokens| && SpecIndex(tokens) == Some(i) && n == RunnerPrefixLength(tokens[..i])
    requires ServerSpec(Unquote(tokens[i])) && forall t | t in tokens[n..i] :: t in RUNNER_BOOLEAN_FLAGS
    ensures SingleServerTokens(tokens)
  {
  }

  lemma SingleServerShape(tokens: seq<string>) returns (runner: seq<string>, flags: seq<string>, spec: string, rest: seq<string>)
    requires SingleServerTokens(tokens)
    ensures RunsServer(tokens, runner, flags, spec, rest)
  {
    var i, n := SingleServerParts(tokens);
    var before := tokens[..i];
    runner, flags, spec, rest := before[..n], before[n..], tokens[i], tokens[i + 1..];
    assert flags == tokens[n..i] && tokens == before + [spec] + rest && before == runner + flags;
    RunnerAtFront(before);
    forall f | f in flags ensures RunnerFlag(f) { RunnerFlagListed(f); }
    ServerPackageIff(Unquote(spec));
  }

  lemma RunnerFound(runner: seq<string>, flags: seq<string>)
    requires Runner(runner)
    ensures RunnerPrefixLength(runner + flags) == |runner| > 0
  {
    RunnerListed(runner);
    RunnersDiffer();
    PrefixFound(SCRIPT_RUNNER_PREFIXES, runner, runner + flags);
  }

  lemma ShapeIsSingleServer(tokens: seq<string>, runner: seq<string>, flags: seq<string>, spec: string, rest: seq<string>)
    requires RunsServer(tokens, runner, flags, spec, rest)
    ensures SingleServerTokens(tokens)
  {
    var i := |runner| + |flags|;
    SpecFound(tokens, runner, flags, spec, rest);
    RunnerFound(runner, flags);
    ServerPackageIff(Unquote(spec));
    assert tokens[..i] == runner + flags && tokens[|runner|..i] == flags && tokens[i] == spec;
    forall f | f in flags ensures f in RUNNER_BOOLEAN_FLAGS { RunnerFlagListed(f); }
    PartsAreSingleServer(tokens, i, |runner|);
  }

  /** The test on the command's words takes exactly these. */
  lemma SingleServerIff(tokens: seq<string>)
    ensures SingleServerTokens(tokens) <==> exists runner, flags, spec, rest :: RunsServer(tokens, runner, flags, spec, rest)
  {
    if SingleServerTokens(tokens) {
      var runner, flags, spec, rest := SingleServerShape(tokens);
    }
    if runner, flags, spec, rest :| RunsServer(tokens, runner, flags, spec, rest) {
      ShapeIsSingleServer(tokens, runner, flags, spec, rest);
    }
  }

  /** The matcher of the flags starts past the first token that begins with the package, a quote before it aside. */
  lemma FlagsStartPastSpec(tokens: seq<string>)
    ensures var r := GeneratedSpecIndex(tokens);
            && (r.Some? ==> exists rest :: Unquote(tokens[r.value]) == "@malloy-publisher/server" + rest)
            && forall j | 0 <= j < (if r.Some? then r.value else |tokens|) ::
                 !exists rest :: Unquote(tokens[j]) == "@malloy-publisher/server" + rest
  {
    var r := GeneratedSpecIndex(tokens);
    if r.Some? {
      var t := Unquote(tokens[r.value]);
      assert t == SPEC + t[|SPEC|..];
    }
    forall j | 0 <= j < (if r.Some? then r.value else |tokens|)
      ensures !exists rest :: Unquote(tokens[j]) == SPEC + rest
    {
      assert tokens[j] in tokens && !(SPEC <= Unquote(tokens[j]));
      assert forall rest :: SPEC <= SPEC + rest;
    }
  }

  // ---------- Why a script is declined ----------

  ghost predicate Mentions(script: string, part: string) {
    exists before, after :: script == before + part + after
  }

  lemma {:induction false} ContainsIff(s: string, part: string)
    ensures Contains(s, part) <==> Mentions(s, part)
  {
    if Contains(s, part) {
      if part <= s {
        assert s == "" + part + s[|part|..];
      } else {
        ContainsIff(s[1..], part);
        var before, after :| s[1..] == before + part + after;
        assert s == ([s[0]] + before) + part + after;
      }
    }
    if before, after :| s == before + part + after {
      ContainsInside(before, part, after);
    }
  }

  predicate Holds(script: string, chars: string) {
    exists c :: c in script && c in chars
  }

  ghost predicate OneServer(script: string) {
    exists runner, flags, spec, rest :: RunsServer(RawTokens(script), runner, flags, spec, rest)
  }

  /** The checks that come before any flag is read, in the order that decides which is reported. */
  lemma WhyDeclined(script: string, env: string, requireInit: bool)
    ensures var d := DeclineReasonFor(Some(script), env, requireInit);
            var mentions := Mentions(script, "@malloy-publisher/server");
            var unmodelled, chained := Holds(script, "`$()#\\"), Holds(script, "&|;<>\n\r");
            var open := !exists l :: ValidLayout(l) && Render(l) == script;
            && (!mentions <==> d.Some? && d.value.reason == NotPublisher)
            && (mentions && unmodelled <==> d.Some? && d.value.reason == UnmodelledShellSyntax)
            && (mentions && !unmodelled && open <==> d.Some? && d.value.reason == Unparseable)
            && (mentions && !unmodelled && !open && (chained || !OneServer(script))
                <==> d.Some? && d.value.reason == UnrecognisedShape)
  {
    ContainsIff(script, SPEC);
    UnterminatedIffNoLayout(script);
    assert NotPublisher in {NotPublisher, UnmodelledShellSyntax, Unparseable, UnrecognisedShape};
    SingleServerIff(RawTokens(script));
    forall c | c in script
      ensures IsUnmodelled(c) <==> c in "`$()#\\"
      ensures IsChaining(c) <==> c in "&|;<>\n\r"
    {
      CharactersListed(c);
    }
    VerdictCases(script, env, requireInit);
  }

  lemma VerdictCases(script: string, env: string, requireInit: bool)
    ensures var d := DeclineReasonFor(Some(script), env, requireInit);
            var shape := ShapeReason(Contains(script, SPEC), HoldsUnmodelled(script), Unterminated(script),
                                     SingleServerInvocation(script));
            forall r | r in {NotPublisher, UnmodelledShellSyntax, Unparseable, UnrecognisedShape} ::
              d.Some? && d.value.reason == r <==> shape == Some(r)
  {
    var shape := ShapeReason(Contains(script, SPEC), HoldsUnmodelled(script), Unterminated(script),
                             SingleServerInvocation(script));
    var late := BootReason(HostFlag(script), requireInit && !Contains(script, "--init"),
                           GeneratedTokens(RawTokens(script), env, requireInit));
    LateCases(HostFlag(script), requireInit && !Contains(script, "--init"),
              GeneratedTokens(RawTokens(script), env, requireInit));
    assert DeclineReasonFor(Some(script), env, requireInit)
        == if shape.Some? then Some(DeclinedScript(shape.value, None)) else late;
  }

  /** Past those, the host and --init decide, and then the whole of the flags. */
  lemma WhyDeclinedAfter(script: string, env: string, requireInit: bool)
    requires Mentions(script, "@malloy-publisher/server") && OneServer(script)
    requires !Holds(script, "`$()#\\") && !Holds(script, "&|;<>\n\r")
    requires exists l :: ValidLayout(l) && Render(l) == script
    ensures var d := DeclineReasonFor(Some(script), env, requireInit);
            var host := HostFlag(script);
            && (host.None? <==> d == Some(DeclinedScript(NoHostFlag, None)))
            && (host.Some? && !NamesLoopback(host.value) <==> d == Some(DeclinedScript(NonLoopbackHost, host)))
            && (host.Some? && NamesLoopback(host.value) && requireInit && !Mentions(script, "--init")
                <==> d == Some(DeclinedScript(NoInitFlag, host)))
            && (d.Some? ==> d.value.reason in {NoHostFlag, NonLoopbackHost, NoInitFlag, DifferentInvocation})
  {
    var host := HostFlag(script);
    var lacksInit := requireInit && !Contains(script, "--init");
    var generated := GeneratedTokens(RawTokens(script), env, requireInit);
    WhyDeclined(script, env, requireInit);
    assert ShapeReason(Contains(script, SPEC), HoldsUnmodelled(script), Unterminated(script),
                       SingleServerInvocation(script)).None?;
    assert DeclineReasonFor(Some(script), env, requireInit) == BootReason(host, lacksInit, generated);
    LateCases(host, lacksInit, generated);
    ContainsIff(script, "--init");
  }

  lemma LateCases(host: Option<string>, lacksInit: bool, generated: bool)
    ensures var d := BootReason(host, lacksInit, generated);
            && (host.None? <==> d == Some(DeclinedScript(NoHostFlag, None)))
            && (host.Some? && !NamesLoopback(host.value) <==> d == Some(DeclinedScript(NonLoopbackHost, host)))
            && (host.Some? && NamesLoopback(host.value) && lacksInit <==> d == Some(DeclinedScript(NoInitFlag, host)))
            && (d.Some? ==> d.value.reason in {NoHostFlag, NonLoopbackHost, NoInitFlag, DifferentInvocation})
  {
    if host.Some? {
      LoopbackIff(host.value);
    }
  }

  // ---------- The flags' values ----------

  function FlagArgs(root: string, config: string, host: string, watch: string): seq<string> {
    ["--server_root", root] + (["--config", config] + (["--host", host] + (["--watch-env", watch] + [])))
  }

  function FlagValues(root: string, config: string, host: string, watch: string): map<string, string> {
    map["--server_root" := root, "--config" := config, "--host" := host, "--watch-env" := watch]
  }

  lemma FlagArgsRead(root: string, config: string, host: string, watch: string)
    requires root != "" && config != "" && host != "" && watch != ""
    ensures var args := FlagArgs(root, config, host, watch);
            && GeneratedWalk(Boot(map[], false), args) == Some(Boot(FlagValues(root, config, host, watch), false))
            && HostWalk(None, args) == Some(host)
  {
    var tail3 := ["--watch-env", watch] + [];
    var tail2 := ["--host", host] + tail3;
    var v1: map<string, string> := map["--server_root" := root];
    var v2 := v1["--config" := config];
    var v3 := v2["--host" := host];
    Generated.PairRead(Boot(map[], false), None, "--server_root", root, ["--config", config] + tail2);
    Generated.PairRead(Boot(v1, false), None, "--config", config, tail2);
    Generated.PairRead(Boot(v2, false), None, "--host", host, tail3);
    Generated.PairRead(Boot(v3, false), Some(host), "--watch-env", watch, []);
    assert v3["--watch-env" := watch] == FlagValues(root, config, host, watch);
  }

  lemma FlagArgsPlain(root: string, config: string, host: string, watch: string)
    requires Generated.PlainToken(root) && Generated.PlainToken(config)
    requires Generated.PlainToken(host) && Generated.PlainToken(watch)
    ensures forall t | t in FlagArgs(root, config, host, watch) :: Generated.PlainToken(t)
  {
    Generated.OwnFlagsPlain();
    assert OWN_FLAGS[0] == "--server_root" && OWN_FLAGS[1] == "--config" && OWN_FLAGS[2] == "--host";
    assert OWN_FLAGS[3] == "--watch-env";
    var tail3 := ["--watch-env", watch] + [];
    var tail2 := ["--host", host] + tail3;
    Generated.PairPlain("--watch-env", watch, []);
    Generated.PairPlain("--host", host, tail3);
    Generated.PairPlain("--config", config, tail2);
    Generated.PairPlain("--server_root", root, ["--config", config] + tail2);
  }

  /** How each value may differ from the one the tool would have written, and how not. */
  predicate TakenValues(root: string, config: string, watch: string, env: string) {
    && (root == "." || root == "./")
    && (config == "./publisher.config.json" || config == "publisher.config.json")
    && watch == env
  }

  lemma ValuesTaken(root: string, config: string, host: string, watch: string, env: string, requireInit: bool)
    ensures CompleteBoot(Boot(FlagValues(root, config, host, watch), false), env, requireInit)
       <==> TakenValues(root, config, watch, env) && IsLoopbackHost(host) && !requireInit
  {
    var values := FlagValues(root, config, host, watch);
    assert OWN_FLAGS[0] == "--server_root" && OWN_FLAGS[1] == "--config" && OWN_FLAGS[2] == "--host";
    assert OWN_FLAGS[3] == "--watch-env";
    assert Accepts("--server_root", root, env) <==> root == "." || root == "./";
    assert Accepts("--config", config, env) <==> config == "./publisher.config.json" || config == "publisher.config.json";
    assert Accepts("--host", host, env) <==> IsLoopbackHost(host);
    assert Accepts("--watch-env", watch, env) <==> watch == env;
    assert values["--server_root"] == root && values["--config"] == config;
    assert values["--host"] == host && values["--watch-env"] == watch;
    AcceptedOneByOne(values, env);
  }

  lemma AcceptedOneByOne(values: map<string, string>, env: string)
    requires forall f | f in OWN_FLAGS :: f in values
    ensures AllAccepted(OWN_FLAGS, values, env) <==>
              && Accepts(OWN_FLAGS[0], values[OWN_FLAGS[0]], env) && Accepts(OWN_FLAGS[1], values[OWN_FLAGS[1]], env)
              && Accepts(OWN_FLAGS[2], values[OWN_FLAGS[2]], env) && Accepts(OWN_FLAGS[3], values[OWN_FLAGS[3]], env)
  {
  }

  /** The four flags with any plain values: adopted exactly when every value is one the tool could mean. */
  lemma ValuesVerdict(v: Version, root: string, config: string, host: string, watch: string, env: string, requireInit: bool)
    requires Generated.PlainToken(root) && Generated.PlainToken(config)
    requires Generated.PlainToken(host) && Generated.PlainToken(watch)
    ensures Adopted(Generated.Line(v, FlagArgs(root, config, host, watch)), env, requireInit)
       <==> TakenValues(root, config, watch, env) && NamesLoopback(host) && !requireInit
  {
    FlagArgsPlain(root, config, host, watch);
    Generated.LineVerdict(v, FlagArgs(root, config, host, watch), env, requireInit);
    FlagArgsRead(root, config, host, watch);
    ValuesTaken(root, config, host, watch, env, requireInit);
    LoopbackIff(host);
  }

  lemma InheritedNamesListed(name: string)
    ensures name in INHERITED_NAMES <==>
              || name == "constructor" || name == "toString" || name == "toLocaleString" || name == "valueOf"
              || name == "hasOwnProperty" || name == "isPrototypeOf" || name == "propertyIsEnumerable"
              || name == "__proto__" || name == "__defineGetter__" || name == "__defineSetter__"
              || name == "__lookupGetter__" || name == "__lookupSetter__"
  {
  }

  /** The override of an npm script takes npm's own separator, that of a bare command none. */
  lemma AlternatePortsText(command: string)
    ensures WithAlternatePorts(command, true) == command + " --" + " --port 4100 --mcp_port 4140"
    ensures WithAlternatePorts(command, false) == command + " --port 4100 --mcp_port 4140"
  {
    assert command + "" == command;
  }

  // ---------- The server's own flags ----------

  lemma ServerPair(st: Settings, flag: string, value: string)
    requires flag in SERVER_VALUE_FLAGS && value != ""
    ensures ServerWalk(st, [flag, value]) == SetFlag(st, flag, value)
  {
    assert [flag, value][2..] == [];
    assert TakesNext([flag, value]);
  }

  /** What each flag sets, and that it sets nothing else. */
  lemma ServerFlags(st: Settings, value: string)
    requires value != ""
    ensures ServerWalk(st, ["--port", value]) == st.(port := Some(value))
    ensures ServerWalk(st, ["--host", value]) == st.(host := Some(value))
    ensures ServerWalk(st, ["--server_root", value]) == st.(serverRoot := Some(value))
    ensures ServerWalk(st, ["--config", value]) == st.(config := Some(value))
    ensures ServerWalk(st, ["--mcp_port", value]) == st.(mcpPort := Some(value))
  {
    ServerPair(st, "--port", value);
    ServerPair(st, "--host", value);
    ServerPair(st, "--server_root", value);
    ServerPair(st, "--config", value);
    ServerPair(st, "--mcp_port", value);
  }

  lemma ServerFlagsMore(st: Settings, value: string)
    requires value != ""
    ensures ServerWalk(st, ["--mcp_host", value]) == st.(mcpHost := Some(value))
    ensures ServerWalk(st, ["--shutdown_drain_duration_seconds", value]) == st.(drain := Some(value))
    ensures ServerWalk(st, ["--shutdown_graceful_close_timeout_seconds", value]) == st.(gracefulClose := Some(value))
    ensures ServerWalk(st, ["--watch-env", value])
         == st.(watch := if st.watch == "" then value else st.watch + "," + value)
  {
    ServerPair(st, "--mcp_host", value);
    ServerPair(st, "--shutdown_drain_duration_seconds", value);
    ServerPair(st, "--shutdown_graceful_close_timeout_seconds", value);
    ServerPair(st, "--watch-env", value);
  }

  lemma ServerSwitches(st: Settings)
    ensures ServerWalk(st, ["--init"]) == st.(init := true)
    ensures ServerWalk(st, ["--no-mcp-config"]) == st.(noMcpConfig := true)
    ensures ServerWalk(st, ["--help"]) == st.(exited := true) == ServerWalk(st, ["-h"])
  {
    assert ["--init"][1..] == [] && ["--no-mcp-config"][1..] == [];
  }

  /** Where the two listeners bind, by the flags that were given. */
  lemma Binds(st: Settings, rest: string, mcp: string)
    requires rest != "" && mcp != ""
    ensures RestHost(st.(host := None)) == "0.0.0.0" && RestHost(st.(host := Some(rest))) == rest
    ensures McpHost(st.(host := None, mcpHost := None)) == "127.0.0.1"
    ensures McpHost(st.(host := Some(rest), mcpHost := None)) == rest
    ensures McpHost(st.(mcpHost := Some(mcp))) == mcp
  {
  }

  /** A flag with no value after it, or an empty one, is passed over. */
  lemma ServerNeedsValue(st: Settings)
    ensures ServerWalk(st, ["--host", ""]) == st
    ensures ServerWalk(st, ["--host"]) == st
  {
    assert ["--host"][1..] == [] && ["--host", ""][1..] == [""] && [""][1..] == [];
    assert !TakesNext(["--host", ""]) && !TakesNext([""]);
  }
}
