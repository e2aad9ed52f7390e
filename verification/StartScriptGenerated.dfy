/**
 * The commands this tool writes against the analyser that reads them back: each is adopted
 * for its own environment and purpose and for no other. And scripts the analyser adopts whose
 * server does something else, at least one for each condition of the exact-adoption theorem.
 */
module StartScriptGenerated {
  import opened Text
  import opened ShellWords
  import opened Loopback
  import opened StartScript
  import Soundness = StartScriptSoundness

  predicate PlainChar(c: char) {
    !IsBlank(c) && !IsQuote(c) && !IsChaining(c) && !IsUnmodelled(c)
  }

  predicate PlainToken(t: string) {
    t != "" && forall c | c in t :: PlainChar(c)
  }

  function SpecToken(v: Version): string {
    SPEC + "@" + v
  }

  function Head(v: Version): seq<string> {
    ["npx", "-y", SpecToken(v)]
  }

  /** A command line: the runner, the package spec, and the server's own arguments. */
  function Line(v: Version, args: seq<string>): string {
    Join(Head(v) + args, " ")
  }

  // ---------- Lines of plain tokens are read as they are written ----------

  lemma {:induction false} JoinChars(ts: seq<string>, p: char -> bool)
    requires p(' ') && forall t, c | t in ts && c in t :: p(c)
    ensures forall c | c in Join(ts, " ") :: p(c)
  {
    if |ts| > 1 {
      assert ts[0] in ts;
      forall t, c | t in ts[1..] && c in t ensures p(c) { assert t in ts; }
      JoinChars(ts[1..], p);
    } else if |ts| == 1 {
      assert ts[0] in ts;
    }
  }

  lemma {:induction false} ContainsNeeds(s: string, part: string, c: char)
    requires Contains(s, part) && c in part
    ensures c in s
  {
    if part <= s {
      var i :| 0 <= i < |part| && part[i] == c;
      assert s[i] == c;
    } else {
      ContainsNeeds(s[1..], part, c);
    }
  }

  lemma SpecPlain()
    ensures PlainToken(SPEC)
  {
    assert PlainToken("@malloy-");
    assert PlainToken("publisher");
    assert PlainToken("/server");
    PlainGlued("@malloy-", "publisher");
    PlainGlued("@malloy-" + "publisher", "/server");
  }

  lemma HeadPlain(v: Version)
    ensures forall t | t in Head(v) :: PlainToken(t)
  {
    SpecPlain();
    VersionPlain(v);
    PlainGlued(SPEC, "@");
    PlainGlued(SPEC + "@", v);
    assert PlainToken("npx") && PlainToken("-y");
  }

  lemma VersionPlain(v: Version)
    ensures PlainToken("@") && PlainToken(v)
  {
  }

  lemma PlainGlued(a: string, b: string)
    requires PlainToken(a) && PlainToken(b)
    ensures PlainToken(a + b)
  {
  }

  lemma RunnerHoldsNoSpec()
    ensures !Contains("npx", SPEC) && !Contains("-y", SPEC)
    ensures Unquote("npx") == "npx" && Unquote("-y") == "-y"
  {
    if Contains("npx", SPEC) { ContainsNeeds("npx", SPEC, '@'); }
    if Contains("-y", SPEC) { ContainsNeeds("-y", SPEC, '@'); }
  }

  lemma SpecTokenIsServer(v: Version)
    ensures SPEC <= SpecToken(v) && Unquote(SpecToken(v)) == SpecToken(v) && ServerSpec(SpecToken(v))
  {
    assert SpecToken(v)[|SPEC| + 1..] == v;
    assert SpecToken(v)[0] == '@' && SpecToken(v)[|SpecToken(v)| - 1] == v[|v| - 1];
    assert v[|v| - 1] in v && !IsQuote(v[|v| - 1]);
  }

  lemma HeadSpec(v: Version, args: seq<string>)
    ensures SpecIndex(Head(v) + args) == Some(2) && SingleServerTokens(Head(v) + args)
    ensures GeneratedSpecIndex(Head(v) + args) == Some(2)
  {
    SpecTokenIsServer(v);
    RunnerHoldsNoSpec();
    var ts := Head(v) + args;
    assert ts[0] == "npx" && ts[1] == "-y" && ts[2] == SpecToken(v);
    FirstAtTwo(ts, (t: string) => Contains(t, SPEC));
    FirstAtTwo(ts, (t: string) => SPEC <= Unquote(t));
    assert ts[..2] == ["npx", "-y"];
    assert SCRIPT_RUNNER_PREFIXES[0] <= ts[..2];
    assert RunnerPrefixLength(ts[..2]) == 1;
    assert ts[1..2] == ["-y"];
  }

  lemma FirstAtTwo(ts: seq<string>, p: string -> bool)
    requires |ts| >= 3 && !p(ts[0]) && !p(ts[1]) && p(ts[2])
    ensures FirstIndex(ts, p) == Some(2)
  {
  }

  lemma LineChars(v: Version, args: seq<string>)
    requires forall t | t in args :: PlainToken(t)
    ensures forall c | c in Line(v, args) :: c == ' ' || PlainChar(c)
  {
    HeadPlain(v);
    forall t, c | t in Head(v) + args && c in t ensures PlainChar(c) { assert t in Head(v) || t in args; }
    JoinChars(Head(v) + args, (c: char) => c == ' ' || PlainChar(c));
  }

  lemma PlainTokensAlone(ts: seq<string>)
    requires forall t | t in ts :: PlainToken(t)
    ensures DequoteAll(ts) == ts && UnquoteAll(ts) == ts
  {
    forall i | 0 <= i < |ts| ensures Dequote(ts[i]) == ts[i] && Unquote(ts[i]) == ts[i] {
      assert ts[i] in ts;
      DequotePlain(ts[i]);
    }
  }

  lemma LineRawTokens(v: Version, args: seq<string>)
    requires forall t | t in args :: PlainToken(t)
    ensures RawTokens(Line(v, args)) == Head(v) + args
  {
    HeadPlain(v);
    var ts := Head(v) + args;
    forall t | t in ts ensures t != "" && BlankFree(t) { assert t in Head(v) || t in args; }
    RawTokensOfJoin([], ts);
    assert [] + ts == ts;
  }

  /** Tokens, blank-split or shell-split, of a line of plain tokens. */
  lemma LineTokens(v: Version, args: seq<string>)
    requires forall t | t in args :: PlainToken(t)
    ensures RawTokens(Line(v, args)) == Head(v) + args && Tokens(Line(v, args)) == Head(v) + args
    ensures !Unterminated(Line(v, args))
  {
    var script := Line(v, args);
    LineRawTokens(v, args);
    LineChars(v, args);
    QuoteFreeTerminates(START, script);
    QuoteFreeHoldsNoBlank(script);
    SplitsAgree(script);
    HeadPlain(v);
    forall t | t in Head(v) + args ensures PlainToken(t) { assert t in Head(v) || t in args; }
    PlainTokensAlone(Head(v) + args);
  }

  lemma {:induction false} ContainsLater(before: string, s: string, part: string)
    requires Contains(s, part)
    ensures Contains(before + s, part)
  {
    if before == "" {
      assert before + s == s;
    } else {
      assert (before + s)[1..] == before[1..] + s;
      ContainsLater(before[1..], s, part);
    }
  }

  lemma {:induction false} JoinContains(ts: seq<string>, i: nat, part: string)
    requires i < |ts| && part <= ts[i]
    ensures Contains(Join(ts, " "), part)
  {
    if i == 0 {
      assert part <= Join(ts, " ");
    } else {
      JoinContains(ts[1..], i - 1, part);
      ContainsLater(ts[0] + " ", Join(ts[1..], " "), part);
    }
  }

  lemma BootReasonNone(host: Option<string>, lacksInit: bool, generated: bool)
    ensures BootReason(host, lacksInit, generated).None?
       <==> host.Some? && IsLoopbackHost(host.value) && !lacksInit && generated
  {
  }

  /** The checks of the verdict, on a script known to be one plain line. */
  lemma VerdictByParts(script: string, env: string, requireInit: bool)
    requires Contains(script, SPEC) && !Unterminated(script)
    requires forall c | c in script :: !IsChaining(c) && !IsUnmodelled(c)
    requires SingleServerTokens(RawTokens(script))
    ensures Adopted(script, env, requireInit) <==>
              && HostFlag(script).Some? && IsLoopbackHost(HostFlag(script).value)
              && (requireInit ==> Contains(script, "--init"))
              && GeneratedTokens(RawTokens(script), env, requireInit)
  {
    var host := HostFlag(script);
    var lacksInit := requireInit && !Contains(script, "--init");
    var generated := GeneratedTokens(RawTokens(script), env, requireInit);
    assert !HoldsUnmodelled(script) && SingleServerInvocation(script);
    assert DeclineReasonFor(Some(script), env, requireInit) == BootReason(host, lacksInit, generated);
    BootReasonNone(host, lacksInit, generated);
  }

  /** The verdict on a line of plain tokens is a matter of its tokens alone. */
  lemma LineVerdict(v: Version, args: seq<string>, env: string, requireInit: bool)
    requires forall t | t in args :: PlainToken(t)
    ensures ServerArgs(Line(v, args)) == args
    ensures var walk := GeneratedWalk(Boot(map[], false), args);
            Adopted(Line(v, args), env, requireInit) <==>
              && HostWalk(None, args).Some? && IsLoopbackHost(HostWalk(None, args).value)
              && (requireInit ==> Contains(Line(v, args), "--init"))
              && walk.Some? && CompleteBoot(walk.value, env, requireInit)
  {
    LineTokens(v, args);
    LineChars(v, args);
    HeadSpec(v, args);
    SpecTokenIsServer(v);
    JoinContains(Head(v) + args, 2, SPEC);
    PlainTokensAlone(args);
    assert (Head(v) + args)[3..] == args;
    VerdictByParts(Line(v, args), env, requireInit);
  }

  // ---------- The generated arguments ----------

  function GeneratedArgs(env: string, extra: seq<string>): seq<string> {
    ["--server_root", "."] + (["--config", "./publisher.config.json"] + (["--host", BIND_HOST]
      + (["--watch-env", env] + extra)))
  }

  function GeneratedValues(env: string): map<string, string> {
    map["--server_root" := ".", "--config" := "./publisher.config.json", "--host" := BIND_HOST, "--watch-env" := env]
  }

  lemma RunnerText()
    ensures "npx -y " == "npx" + " " + "-y" + " "
  {
  }

  lemma RootText()
    ensures " --server_root . " == " " + "--server_root" + " " + "." + " "
  {
  }

  lemma ConfigText()
    ensures "--config ./publisher.config.json --host "
         == "--config" + " " + "./publisher.config.json" + " " + "--host" + " "
  {
    assert "--config ./publisher.config.json" == "--config" + " " + "./publisher.config.json";
    assert " --host " == " " + "--host" + " ";
  }

  lemma StartCommandText(v: Version, env: string)
    ensures StartCommandFor(v, env)
         == "npx" + " " + "-y" + " " + SpecToken(v) + " "
          + ("--server_root" + " " + "." + " " + ("--config" + " " + "./publisher.config.json" + " "
          + ("--host" + " " + BIND_HOST + " " + ("--watch-env" + " " + env))))
  {
    RunnerText();
    RootText();
    ConfigText();
    assert "--watch-env " == "--watch-env" + " ";
    Reassociate("npx" + " " + "-y" + " ", SPEC, "@", v, " ", "--server_root" + " " + "." + " ",
                "--config" + " " + "./publisher.config.json" + " ", "--host" + " ", BIND_HOST, "--watch-env" + " ", env);
    LeadingBlank(" ", "--server_root", ".");
    TrailingFlag("--config" + " " + "./publisher.config.json" + " ", "--host", " ");
  }

  lemma LeadingBlank(blank: string, flag: string, value: string)
    ensures blank + flag + blank + value + blank == blank + (flag + blank + value + blank)
  {
  }

  lemma TrailingFlag(before: string, flag: string, blank: string)
    ensures before + flag + blank == before + (flag + blank)
  {
  }

  lemma Reassociate(run: string, spec: string, at: string, version: string, blank: string, root: string,
                    config: string, hostFlag: string, host: string, watch: string, env: string)
    ensures run + spec + at + version + (blank + root) + (config + hostFlag) + host + blank + watch + env
         == run + (spec + at + version) + blank + (root + (config + (hostFlag + host + blank + (watch + env))))
  {
  }

  lemma StartCommandIsLine(v: Version, env: string)
    ensures StartCommandFor(v, env) == Line(v, GeneratedArgs(env, []))
  {
    JoinFourPairs("--server_root", ".", "--config", "./publisher.config.json", "--host", BIND_HOST, "--watch-env", env);
    JoinHead(v, GeneratedArgs(env, []));
    StartCommandText(v, env);
  }

  lemma JoinFourPairs(a: string, b: string, c: string, d: string, e: string, f: string, g: string, h: string)
    ensures Join([a, b] + ([c, d] + ([e, f] + ([g, h] + []))), " ")
         == a + " " + b + " " + (c + " " + d + " " + (e + " " + f + " " + (g + " " + h)))
  {
    JoinPair(g, h, []);
    JoinPair(e, f, [g, h] + []);
    JoinPair(c, d, [e, f] + ([g, h] + []));
    JoinPair(a, b, [c, d] + ([e, f] + ([g, h] + [])));
  }

  lemma JoinPair(a: string, b: string, rest: seq<string>)
    ensures Join([a, b] + rest, " ") == a + " " + b + (if rest == [] then "" else " " + Join(rest, " "))
  {
  }

  lemma JoinHead(v: Version, args: seq<string>)
    requires args != []
    ensures Line(v, args) == "npx" + " " + "-y" + " " + SpecToken(v) + " " + Join(args, " ")
  {
    JoinThree("npx", "-y", SpecToken(v), args);
  }

  lemma JoinThree(a: string, b: string, c: string, rest: seq<string>)
    requires rest != []
    ensures Join([a, b, c] + rest, " ") == a + " " + b + " " + c + " " + Join(rest, " ")
  {
    assert [a, b, c] + rest == [a, b] + ([c] + rest);
    JoinPair(a, b, [c] + rest);
    assert ([c] + rest)[1..] == rest;
  }

  lemma {:induction false} JoinExtend(ts: seq<string>, extra: seq<string>)
    requires ts != [] && extra != []
    ensures Join(ts + extra, " ") == Join(ts, " ") + " " + Join(extra, " ")
  {
    assert (ts + extra)[1..] == ts[1..] + extra;
    if |ts| > 1 {
      JoinExtend(ts[1..], extra);
    }
  }

  lemma ResetCommandIsLine(v: Version, env: string)
    ensures ResetCommandFor(v, env) == Line(v, GeneratedArgs(env, ["--init"]))
  {
    StartCommandIsLine(v, env);
    JoinExtend(Head(v) + GeneratedArgs(env, []), ["--init"]);
    assert Head(v) + GeneratedArgs(env, []) + ["--init"] == Head(v) + GeneratedArgs(env, ["--init"]);
  }

  const PORTS: seq<string> := ["--port", "4100", "--mcp_port", "4140"]

  lemma PortsText()
    ensures " " + Join(PORTS, " ") == " --port 4100 --mcp_port 4140"
  {
    var mcp := ["--mcp_port", "4140"];
    assert PORTS == ["--port", "4100"] + mcp && mcp + [] == mcp;
    JoinPair("--port", "4100", mcp);
    JoinPair("--mcp_port", "4140", []);
    assert "--port" + " " + "4100" + " " == "--port 4100 ";
    assert "--mcp_port" + " " + "4140" == "--mcp_port 4140";
    assert Join(PORTS, " ") == "--port 4100 " + "--mcp_port 4140";
    assert " --port 4100 --mcp_port 4140" == " " + ("--port 4100 " + "--mcp_port 4140");
  }

  lemma NothingBetween(command: string, blank: string, ports: string)
    ensures command + "" + (blank + ports) == command + blank + ports
  {
  }

  lemma AlternatePortsAreLine(v: Version, env: string, extra: seq<string>)
    ensures WithAlternatePorts(Line(v, GeneratedArgs(env, extra)), false) == Line(v, GeneratedArgs(env, extra + PORTS))
  {
    var ts := Head(v) + GeneratedArgs(env, extra);
    JoinExtend(ts, PORTS);
    PortsText();
    assert ts + PORTS == Head(v) + GeneratedArgs(env, extra + PORTS);
    NothingBetween(Line(v, GeneratedArgs(env, extra)), " ", Join(PORTS, " "));
  }

  lemma ConfigPathPlain()
    ensures PlainToken("./publisher.config.json")
  {
    var path := "./publisher.config.json";
    forall i | 0 <= i < |path| ensures PlainChar(path[i]) { }
  }

  lemma OwnTokensPlain()
    ensures forall f | f in OWN_FLAGS :: PlainToken(f)
    ensures PlainToken(".") && PlainToken("./publisher.config.json") && PlainToken(BIND_HOST)
    ensures PlainToken("--init") && PlainToken("constructor")
  {
    ConfigPathPlain();
    OwnFlagsPlain();
    assert PlainToken(BIND_HOST) && PlainToken(".") && PlainToken("constructor");
  }

  lemma OwnFlagsPlain()
    ensures forall f | f in OWN_FLAGS :: PlainToken(f)
    ensures PlainToken("--init")
  {
    LongFlagsPlain();
    assert PlainToken("--config") && PlainToken("--host");
  }

  lemma LongFlagsPlain()
    ensures PlainToken("--server_root") && PlainToken("--watch-env")
  {
  }

  lemma PortTokensPlain()
    ensures forall t | t in PORTS :: PlainToken(t)
  {
    assert PlainToken("--port") && PlainToken("4100") && PlainToken("--mcp_port") && PlainToken("4140");
  }

  lemma PairPlain(a: string, b: string, rest: seq<string>)
    requires PlainToken(a) && PlainToken(b) && forall t | t in rest :: PlainToken(t)
    ensures forall t | t in [a, b] + rest :: PlainToken(t)
  {
  }

  lemma GeneratedArgsPlain(env: string, extra: seq<string>)
    requires ValidEnvironmentName(env) && forall t | t in extra :: PlainToken(t)
    ensures forall t | t in GeneratedArgs(env, extra) :: PlainToken(t)
  {
    assert PlainToken(env);
    OwnTokensPlain();
    assert OWN_FLAGS[0] == "--server_root" && OWN_FLAGS[1] == "--config" && OWN_FLAGS[2] == "--host";
    assert OWN_FLAGS[3] == "--watch-env";
    var tail3 := ["--watch-env", env] + extra;
    var tail2 := ["--host", BIND_HOST] + tail3;
    PairPlain("--watch-env", env, extra);
    PairPlain("--host", BIND_HOST, tail3);
    PairPlain("--config", "./publisher.config.json", tail2);
    PairPlain("--server_root", ".", ["--config", "./publisher.config.json"] + tail2);
  }

  lemma PairRead(acc: Boot, host: Option<string>, flag: string, value: string, rest: seq<string>)
    requires flag in OWN_FLAGS && value != ""
    ensures GeneratedWalk(acc, [flag, value] + rest)
         == GeneratedWalk(acc.(values := acc.values[flag := value]), rest)
    ensures HostWalk(host, [flag, value] + rest) == HostWalk(if flag == "--host" then Some(value) else host, rest)
  {
  }

  lemma GeneratedArgsRead(values: map<string, string>, host: Option<string>, env: string, extra: seq<string>)
    requires env != ""
    ensures GeneratedWalk(Boot(values, false), GeneratedArgs(env, extra))
         == GeneratedWalk(Boot(values + GeneratedValues(env), false), extra)
    ensures HostWalk(host, GeneratedArgs(env, extra)) == HostWalk(Some(BIND_HOST), extra)
  {
    var tail3 := ["--watch-env", env] + extra;
    var tail2 := ["--host", BIND_HOST] + tail3;
    var tail1 := ["--config", "./publisher.config.json"] + tail2;
    var v1 := values["--server_root" := "."];
    var v2 := v1["--config" := "./publisher.config.json"];
    var v3 := v2["--host" := BIND_HOST];
    PairRead(Boot(values, false), host, "--server_root", ".", tail1);
    PairRead(Boot(v1, false), host, "--config", "./publisher.config.json", tail2);
    PairRead(Boot(v2, false), host, "--host", BIND_HOST, tail3);
    PairRead(Boot(v3, false), Some(BIND_HOST), "--watch-env", env, extra);
    assert v3["--watch-env" := env] == values + GeneratedValues(env);
  }

  lemma OctetsText()
    ensures Join(["127", "0", "0", "1"], ".") == BIND_HOST
  {
    assert Join(["1"], ".") == "1";
    assert Join(["0", "1"], ".") == "0.1";
    assert Join(["0", "0", "1"], ".") == "0.0.1";
  }

  lemma BindHostIsLoopback()
    ensures IsLoopbackHost(BIND_HOST)
  {
    BindHostDotted();
    assert StripBrackets(BIND_HOST) == BIND_HOST;
    assert Lower(BIND_HOST) == BIND_HOST;
  }

  lemma BindHostDotted()
    ensures DottedLoopback(BIND_HOST)
  {
    var octets := ["127", "0", "0", "1"];
    OctetsText();
    assert OctetShaped(octets[1]) && OctetShaped(octets[3]) && octets[0] == "127";
    SplitOnJoin(octets, '.');
  }

  lemma GeneratedComplete(env: string, env': string, init: bool, requireInit: bool)
    ensures CompleteBoot(Boot(GeneratedValues(env), init), env', requireInit) <==> env == env' && init == requireInit
  {
    BindHostIsLoopback();
    assert "--watch-env" in OWN_FLAGS;
    assert Accepts("--watch-env", env, env') <==> env == env';
  }

  // ---------- Completeness and separation ----------

  /** The start command is adopted exactly as the start script of its own environment. */
  lemma StartCommandVerdict(v: Version, env: string, env': string, requireInit: bool)
    requires ValidEnvironmentName(env)
    ensures Adopted(StartCommandFor(v, env), env', requireInit) <==> env == env' && !requireInit
  {
    StartCommandIsLine(v, env);
    GeneratedArgsPlain(env, []);
    LineVerdict(v, GeneratedArgs(env, []), env', requireInit);
    GeneratedArgsRead(map[], None, env, []);
    assert map[] + GeneratedValues(env) == GeneratedValues(env);
    BindHostIsLoopback();
    GeneratedComplete(env, env', false, requireInit);
  }

  lemma InitRead(acc: Boot, host: Option<string>)
    ensures GeneratedWalk(acc, ["--init"]) == Some(acc.(init := true))
    ensures HostWalk(host, ["--init"]) == host
  {
    assert ["--init"][1..] == [];
  }

  lemma ResetHoldsInit(v: Version, env: string)
    ensures Contains(ResetCommandFor(v, env), "--init")
  {
    ContainsInside(StartCommandFor(v, env) + " ", "--init", "");
    assert " --init" == " " + "--init";
    assert ResetCommandFor(v, env) == StartCommandFor(v, env) + " " + "--init" + "";
  }

  /** The reset command is adopted exactly as the reset script of its own environment. */
  lemma ResetCommandVerdict(v: Version, env: string, env': string, requireInit: bool)
    requires ValidEnvironmentName(env)
    ensures Adopted(ResetCommandFor(v, env), env', requireInit) <==> env == env' && requireInit
  {
    ResetCommandIsLine(v, env);
    OwnTokensPlain();
    GeneratedArgsPlain(env, ["--init"]);
    LineVerdict(v, GeneratedArgs(env, ["--init"]), env', requireInit);
    GeneratedArgsRead(map[], None, env, ["--init"]);
    assert map[] + GeneratedValues(env) == GeneratedValues(env);
    InitRead(Boot(GeneratedValues(env), false), Some(BIND_HOST));
    BindHostIsLoopback();
    GeneratedComplete(env, env', true, requireInit);
    ResetHoldsInit(v, env);
  }

  /** What the server does when it is given either command. */
  lemma CommandsServed(v: Version, env: string)
    requires ValidEnvironmentName(env)
    ensures var st := UNSET.(serverRoot := Some("."), config := Some("./publisher.config.json"),
                             host := Some(BIND_HOST), watch := env);
            && ServerWalk(UNSET, ServerArgs(StartCommandFor(v, env))) == st
            && ServerWalk(UNSET, ServerArgs(ResetCommandFor(v, env))) == st.(init := true)
  {
    StartCommandIsLine(v, env);
    ResetCommandIsLine(v, env);
    OwnTokensPlain();
    GeneratedArgsPlain(env, []);
    GeneratedArgsPlain(env, ["--init"]);
    LineVerdict(v, GeneratedArgs(env, []), env, false);
    LineVerdict(v, GeneratedArgs(env, ["--init"]), env, true);
    ServerReadsGenerated(UNSET, env, []);
    ServerReadsGenerated(UNSET, env, ["--init"]);
    assert ["--init"][1..] == [];
  }

  /** Neither command is adopted for anything once the alternate ports are appended. */
  lemma AlternatePortsDeclined(v: Version, env: string, env': string, requireInit: bool)
    requires ValidEnvironmentName(env)
    ensures !Adopted(WithAlternatePorts(StartCommandFor(v, env), false), env', requireInit)
    ensures !Adopted(WithAlternatePorts(ResetCommandFor(v, env), false), env', requireInit)
  {
    StartCommandIsLine(v, env);
    ResetCommandIsLine(v, env);
    PortsDeclined(v, env, [], env', requireInit);
    PortsDeclined(v, env, ["--init"], env', requireInit);
  }

  lemma PortsUnread(acc: Boot, extra: seq<string>)
    requires extra == [] || extra == ["--init"]
    ensures GeneratedWalk(acc, extra + PORTS).None?
    decreases |extra|
  {
    if extra == [] {
      assert extra + PORTS == PORTS && PORTS[0] == "--port";
    } else {
      assert (extra + PORTS)[0] == "--init" && (extra + PORTS)[1..] == PORTS;
      PortsUnread(acc.(init := true), []);
      assert [] + PORTS == PORTS;
    }
  }

  lemma PortsDeclined(v: Version, env: string, extra: seq<string>, env': string, requireInit: bool)
    requires ValidEnvironmentName(env) && (extra == [] || extra == ["--init"])
    ensures !Adopted(WithAlternatePorts(Line(v, GeneratedArgs(env, extra)), false), env', requireInit)
  {
    AlternatePortsAreLine(v, env, extra);
    PortTokensPlain();
    OwnTokensPlain();
    GeneratedArgsPlain(env, extra + PORTS);
    LineVerdict(v, GeneratedArgs(env, extra + PORTS), env', requireInit);
    GeneratedArgsRead(map[], None, env, extra + PORTS);
    PortsUnread(Boot(map[] + GeneratedValues(env), false), extra);
  }

  // ---------- Adopted, and not what the server does ----------

  lemma ServerPairRead(st: Settings, flag: string, value: string, rest: seq<string>)
    requires flag in OWN_FLAGS && value != ""
    ensures ServerWalk(st, [flag, value] + rest) == ServerWalk(SetFlag(st, flag, value), rest)
  {
  }

  lemma ServerReadsGenerated(st: Settings, env: string, extra: seq<string>)
    requires env != ""
    ensures ServerWalk(st, GeneratedArgs(env, extra))
         == ServerWalk(st.(serverRoot := Some("."), config := Some("./publisher.config.json"),
                           host := Some(BIND_HOST), watch := AppendWatch(st.watch, env)), extra)
  {
    var tail3 := ["--watch-env", env] + extra;
    var tail2 := ["--host", BIND_HOST] + tail3;
    var s1 := st.(serverRoot := Some("."));
    var s2 := s1.(config := Some("./publisher.config.json"));
    ServerPairRead(st, "--server_root", ".", ["--config", "./publisher.config.json"] + tail2);
    ServerPairRead(s1, "--config", "./publisher.config.json", tail2);
    ServerPairRead(s2, "--host", BIND_HOST, tail3);
    ServerPairRead(s2.(host := Some(BIND_HOST)), "--watch-env", env, extra);
  }

  function TwoWatches(env: string, other: string): seq<string> {
    ["--watch-env", other] + GeneratedArgs(env, [])
  }

  lemma TwoWatchesRead(env: string, other: string)
    requires env != "" && other != ""
    ensures GeneratedWalk(Boot(map[], false), TwoWatches(env, other)) == Some(Boot(GeneratedValues(env), false))
    ensures HostWalk(None, TwoWatches(env, other)) == Some(BIND_HOST)
    ensures ServerWalk(UNSET, TwoWatches(env, other)).watch == other + "," + env
  {
    PairRead(Boot(map[], false), None, "--watch-env", other, GeneratedArgs(env, []));
    GeneratedArgsRead(map["--watch-env" := other], None, env, []);
    assert map["--watch-env" := other] + GeneratedValues(env) == GeneratedValues(env);
    ServerPairRead(UNSET, "--watch-env", other, GeneratedArgs(env, []));
    ServerReadsGenerated(UNSET.(watch := other), env, []);
  }

  /** A second --watch-env: adopted for the last one, while the server watches both. */
  lemma RepeatedWatchAdopted(v: Version, env: string, other: string)
    requires ValidEnvironmentName(env) && ValidEnvironmentName(other)
    ensures var script := Line(v, TwoWatches(env, other));
            Adopted(script, env, false) && ServerWalk(UNSET, ServerArgs(script)).watch == other + "," + env
  {
    GeneratedArgsPlain(env, []);
    OwnFlagsPlain();
    assert OWN_FLAGS[3] == "--watch-env";
    PairPlain("--watch-env", other, GeneratedArgs(env, []));
    LineVerdict(v, TwoWatches(env, other), env, false);
    TwoWatchesRead(env, other);
    BindHostIsLoopback();
    GeneratedComplete(env, env, false, false);
  }

  const HIDDEN_INIT: seq<string> := ["constructor", "--init"]

  lemma HiddenInitRead(acc: Boot, host: Option<string>, st: Settings)
    ensures GeneratedWalk(acc, HIDDEN_INIT) == Some(acc.(values := acc.values["constructor" := "--init"]))
    ensures HostWalk(host, HIDDEN_INIT) == host
    ensures ServerWalk(st, HIDDEN_INIT) == st.(init := true)
  {
    assert HIDDEN_INIT[2..] == [] && HIDDEN_INIT[1..] == ["--init"] && ["--init"][1..] == [];
    assert !TakesNext(HIDDEN_INIT);
    assert ServerWalk(st, HIDDEN_INIT) == ServerWalk(st, ["--init"]);
    assert HostWalk(host, HIDDEN_INIT) == HostWalk(host, ["--init"]);
  }

  /** A name every object inherits passes for a value flag and hides --init from the analyser. */
  lemma InheritedNameAdopted(v: Version, env: string)
    requires ValidEnvironmentName(env)
    ensures var script := Line(v, GeneratedArgs(env, HIDDEN_INIT));
            Adopted(script, env, false) && ServerWalk(UNSET, ServerArgs(script)).init
  {
    OwnTokensPlain();
    GeneratedArgsPlain(env, HIDDEN_INIT);
    LineVerdict(v, GeneratedArgs(env, HIDDEN_INIT), env, false);
    HiddenInitArgsRead(env);
    BindHostIsLoopback();
    GeneratedComplete(env, env, false, false);
    StrayKeyComplete(GeneratedValues(env), "constructor", "--init", env);
  }

  lemma HiddenInitArgsRead(env: string)
    requires env != ""
    ensures var args := GeneratedArgs(env, HIDDEN_INIT);
            && GeneratedWalk(Boot(map[], false), args) == Some(Boot(GeneratedValues(env)["constructor" := "--init"], false))
            && HostWalk(None, args) == Some(BIND_HOST) && ServerWalk(UNSET, args).init
  {
    GeneratedArgsRead(map[], None, env, HIDDEN_INIT);
    assert map[] + GeneratedValues(env) == GeneratedValues(env);
    var st := UNSET.(serverRoot := Some("."), config := Some("./publisher.config.json"),
                     host := Some(BIND_HOST), watch := AppendWatch(UNSET.watch, env));
    HiddenInitRead(Boot(GeneratedValues(env), false), Some(BIND_HOST), st);
    ServerReadsGenerated(UNSET, env, HIDDEN_INIT);
  }

  lemma StrayKeyComplete(values: map<string, string>, key: string, value: string, env: string)
    requires CompleteBoot(Boot(values, false), env, false) && key !in OWN_FLAGS
    ensures CompleteBoot(Boot(values[key := value], false), env, false)
  {
  }

  // ---------- One of the analyser's own flags, hidden ----------

  /** `constructor` twice: it hides a flag from the analyser, and is the value the server gives it. */
  function HidingFlag(flag: string): seq<string> {
    ["constructor", flag, "constructor", "x"]
  }

  lemma InheritedUnread(host: Option<string>, st: Settings, word: string, rest: seq<string>)
    requires word == "constructor" || word == "x"
    ensures ServerWalk(st, [word] + rest) == ServerWalk(st, rest)
    ensures HostWalk(host, [word] + rest) == HostWalk(host, rest)
  {
    assert ([word] + rest)[1..] == rest && ([word] + rest)[0] == word;
  }

  lemma HidingFlagServed(host: Option<string>, st: Settings, flag: string, rest: seq<string>)
    requires flag in OWN_FLAGS
    ensures flag in SERVER_VALUE_FLAGS
    ensures ServerWalk(st, HidingFlag(flag) + rest) == ServerWalk(SetFlag(st, flag, "constructor"), rest)
    ensures HostWalk(host, HidingFlag(flag) + rest)
         == HostWalk(if flag == "--host" then Some("constructor") else host, rest)
  {
    var tail := [flag, "constructor"] + (["x"] + rest);
    assert HidingFlag(flag) + rest == ["constructor"] + tail;
    InheritedUnread(host, st, "constructor", tail);
    ServerPairRead(st, flag, "constructor", ["x"] + rest);
    PairRead(Boot(map[], false), host, flag, "constructor", ["x"] + rest);
    InheritedUnread(if flag == "--host" then Some("constructor") else host, SetFlag(st, flag, "constructor"), "x", rest);
  }

  lemma StrayRead(acc: Boot, word: string, rest: seq<string>)
    ensures GeneratedWalk(acc, ["constructor", word] + rest)
         == GeneratedWalk(acc.(values := acc.values["constructor" := word]), rest)
  {
    assert (["constructor", word] + rest)[2..] == rest;
  }

  lemma HidingFlagRead(acc: Boot, flag: string, rest: seq<string>)
    ensures GeneratedWalk(acc, HidingFlag(flag) + rest)
         == GeneratedWalk(acc.(values := acc.values["constructor" := "x"]), rest)
  {
    assert HidingFlag(flag) + rest == ["constructor", flag] + (["constructor", "x"] + rest);
    StrayRead(acc, flag, ["constructor", "x"] + rest);
    StrayRead(acc.(values := acc.values["constructor" := flag]), "x", rest);
    assert acc.values["constructor" := flag]["constructor" := "x"] == acc.values["constructor" := "x"];
  }

  lemma HidingFlagPlain(flag: string)
    requires flag in OWN_FLAGS
    ensures forall t | t in HidingFlag(flag) :: PlainToken(t)
  {
    OwnTokensPlain();
    assert PlainToken("x");
  }

  /** The flag is a word hidden from the analyser. */
  lemma HidingFlagHides(flag: string, rest: seq<string>)
    requires flag in OWN_FLAGS
    ensures Soundness.FirstHidden(HidingFlag(flag) + rest, false) == Some(flag)
  {
    ConstructorAlone();
    OwnFlagAlone(flag);
    var raw := HidingFlag(flag) + rest;
    assert raw[0] == "constructor" && raw[1] == flag && raw[2] == "constructor";
    DequotedHead(raw);
    FlagActedOn(DequoteAll(raw[1..]));
    HiddenFirst(raw, false);
  }

  lemma ConstructorAlone()
    ensures Unquote("constructor") == "constructor" == Dequote("constructor")
    ensures "constructor" in INHERITED_NAMES && "constructor" != "--init"
  {
    OwnTokensPlain();
    DequotePlain("constructor");
  }

  lemma OwnFlagAlone(flag: string)
    requires flag in OWN_FLAGS
    ensures Dequote(flag) == flag && flag in SERVER_VALUE_FLAGS && flag != "--init"
  {
    OwnTokensPlain();
    DequotePlain(flag);
    Soundness.OwnFlagsPlain(flag);
  }

  lemma DequotedHead(raw: seq<string>)
    requires |raw| >= 3
    ensures var args := DequoteAll(raw[1..]); |args| >= 2 && args[0] == Dequote(raw[1]) && args[1] == Dequote(raw[2])
  {
  }

  lemma FlagActedOn(args: seq<string>)
    requires |args| >= 2 && args[0] in SERVER_VALUE_FLAGS && args[0] != "--init" && args[1] != ""
    ensures !Soundness.Harmless(args, false)
  {
  }

  lemma HiddenFirst(raw: seq<string>, requireInit: bool)
    requires |raw| >= 2 && Unquote(raw[0]) != "--init" && Unquote(raw[0]) in INHERITED_NAMES
    requires !Soundness.Harmless(DequoteAll(raw[1..]), requireInit)
    ensures Soundness.FirstHidden(raw, requireInit) == Some(Dequote(raw[1]))
  {
  }

  lemma PairHidesNothing(flag: string, value: string, rest: seq<string>)
    requires flag in OWN_FLAGS
    ensures Soundness.FirstHidden([flag, value] + rest, false) == Soundness.FirstHidden(rest, false)
  {
    var raw := [flag, value] + rest;
    assert raw[2..] == rest && Unquote(flag) == flag && flag != "--init";
    Soundness.FlagsStartWithDash();
    if flag in INHERITED_NAMES {
      Soundness.InheritedPlain(flag);
    }
  }

  lemma GeneratedArgsHideNothing(env: string, extra: seq<string>)
    ensures Soundness.FirstHidden(GeneratedArgs(env, extra), false) == Soundness.FirstHidden(extra, false)
  {
    var tail3 := ["--watch-env", env] + extra;
    var tail2 := ["--host", BIND_HOST] + tail3;
    PairHidesNothing("--server_root", ".", ["--config", "./publisher.config.json"] + tail2);
    PairHidesNothing("--config", "./publisher.config.json", tail2);
    PairHidesNothing("--host", BIND_HOST, tail3);
    PairHidesNothing("--watch-env", env, extra);
  }

  lemma LineHides(v: Version, args: seq<string>)
    requires forall t | t in args :: PlainToken(t)
    ensures Soundness.HiddenWord(Line(v, args), false) == Soundness.FirstHidden(args, false)
  {
    LineTokens(v, args);
    HeadSpec(v, args);
    assert (Head(v) + args)[3..] == args;
    Soundness.HiddenPastSpec(Line(v, args), false, 2);
  }

  lemma StrayKeyAccepted(env: string)
    ensures CompleteBoot(Boot(GeneratedValues(env)["constructor" := "x"], false), env, false)
  {
    BindHostIsLoopback();
    GeneratedComplete(env, env, false, false);
    StrayKeyComplete(GeneratedValues(env), "constructor", "x", env);
  }

  /** Hidden ahead of the generated flags, --host changes nothing: the flag itself comes later. */
  lemma HiddenFlagOverridden(v: Version, env: string)
    requires ValidEnvironmentName(env)
    ensures var script := Line(v, HidingFlag("--host") + GeneratedArgs(env, []));
            && Adopted(script, env, false) && Soundness.HiddenWord(script, false) == Some("--host")
            && ServerWalk(UNSET, ServerArgs(script)) == ServerWalk(UNSET, ServerArgs(StartCommandFor(v, env)))
  {
    assert OWN_FLAGS[2] == "--host";
    GeneratedArgsPlain(env, []);
    HidingFlagPlain("--host");
    HidingFlagHides("--host", GeneratedArgs(env, []));
    LineHides(v, HidingFlag("--host") + GeneratedArgs(env, []));
    LineVerdict(v, HidingFlag("--host") + GeneratedArgs(env, []), env, false);
    HiddenHostRead(env);
    StrayKeyAccepted(env);
    BindHostIsLoopback();
    CommandsServed(v, env);
  }

  lemma HiddenHostRead(env: string)
    requires env != ""
    ensures var args := HidingFlag("--host") + GeneratedArgs(env, []);
            && GeneratedWalk(Boot(map[], false), args) == Some(Boot(GeneratedValues(env)["constructor" := "x"], false))
            && HostWalk(None, args) == Some(BIND_HOST)
            && ServerWalk(UNSET, args) == UNSET.(serverRoot := Some("."), config := Some("./publisher.config.json"),
                                                 host := Some(BIND_HOST), watch := env)
  {
    var plain := GeneratedArgs(env, []);
    assert OWN_FLAGS[2] == "--host";
    HidingFlagRead(Boot(map[], false), "--host", plain);
    HidingFlagServed(None, UNSET, "--host", plain);
    GeneratedArgsRead(map["constructor" := "x"], Some("constructor"), env, []);
    assert map["constructor" := "x"] + GeneratedValues(env) == GeneratedValues(env)["constructor" := "x"];
    ServerReadsGenerated(UNSET.(host := Some("constructor")), env, []);
  }

  /** Hidden after them, --server_root makes the server serve another directory. */
  lemma HiddenFlagLast(v: Version, env: string)
    requires ValidEnvironmentName(env)
    ensures var script := Line(v, GeneratedArgs(env, HidingFlag("--server_root")));
            && Adopted(script, env, false) && Soundness.HiddenWord(script, false) == Some("--server_root")
            && ServerWalk(UNSET, ServerArgs(script)).serverRoot == Some("constructor")
  {
    var last := HidingFlag("--server_root");
    assert OWN_FLAGS[0] == "--server_root" && last + [] == last;
    HidingFlagHides("--server_root", []);
    GeneratedArgsHideNothing(env, last);
    HidingFlagPlain("--server_root");
    GeneratedArgsPlain(env, last);
    LineHides(v, GeneratedArgs(env, last));
    LineVerdict(v, GeneratedArgs(env, last), env, false);
    HiddenRootRead(env);
    StrayKeyAccepted(env);
    BindHostIsLoopback();
  }

  lemma HiddenRootRead(env: string)
    requires env != ""
    ensures var args := GeneratedArgs(env, HidingFlag("--server_root"));
            && GeneratedWalk(Boot(map[], false), args) == Some(Boot(GeneratedValues(env)["constructor" := "x"], false))
            && HostWalk(None, args) == Some(BIND_HOST)
            && ServerWalk(UNSET, args).serverRoot == Some("constructor")
  {
    var last := HidingFlag("--server_root");
    assert OWN_FLAGS[0] == "--server_root" && last + [] == last;
    GeneratedArgsRead(map[], None, env, last);
    assert map[] + GeneratedValues(env) == GeneratedValues(env);
    HidingFlagRead(Boot(GeneratedValues(env), false), "--server_root", []);
    var st := UNSET.(serverRoot := Some("."), config := Some("./publisher.config.json"),
                     host := Some(BIND_HOST), watch := AppendWatch(UNSET.watch, env));
    HidingFlagServed(Some(BIND_HOST), st, "--server_root", []);
    ServerReadsGenerated(UNSET, env, last);
  }

  // ---------- A quoted blank ----------

  const QUOTED_INITS: seq<string> := ["\"--init", "--init\""]

  /** Words in quotes after a line are one more word of the line. */
  lemma QuotedWordLast(line: string, mark: char, text: string)
    requires !Unterminated(line) && IsQuote(mark) && mark !in text
    ensures var script := line + " " + [mark] + text + [mark];
            !Unterminated(script) && Tokens(script) == Tokens(line) + [text]
  {
    var st := Scan(START, line);
    var quoted := RenderPiece(Quoted(mark, text));
    assert line + " " + [mark] + text + [mark] == line + (" " + quoted);
    ScanAppend(START, line, " " + quoted);
    ScanAppend(st, " ", quoted);
    ScanBlanks(st, " ");
    var next := Lexer(Flush(st), "", None, false);
    ScanPiece(next, Quoted(mark, text));
    assert next.current + text == text;
  }

  lemma QuotedInitsUnquoted()
    ensures UnquoteAll(QUOTED_INITS) == ["--init", "--init"]
    ensures forall t | t in QUOTED_INITS :: t != "" && BlankFree(t)
  {
    var opens, closes := QUOTED_INITS[0], QUOTED_INITS[1];
    assert opens[1..] == "--init" && closes[..6] == "--init";
    forall i | 0 <= i < |opens| ensures !IsBlank(opens[i]) { }
    forall i | 0 <= i < |closes| ensures !IsBlank(closes[i]) { }
  }

  function QuotedInits(v: Version, env: string): string {
    Line(v, GeneratedArgs(env, QUOTED_INITS))
  }

  lemma QuotedInitsText(v: Version, env: string)
    ensures QuotedInits(v, env) == StartCommandFor(v, env) + " " + ['"'] + "--init --init" + ['"']
  {
    var ts := Head(v) + GeneratedArgs(env, []);
    StartCommandIsLine(v, env);
    JoinExtend(ts, QUOTED_INITS);
    assert ts + QUOTED_INITS == Head(v) + GeneratedArgs(env, QUOTED_INITS);
    JoinPair(QUOTED_INITS[0], QUOTED_INITS[1], []);
    assert QUOTED_INITS + [] == QUOTED_INITS;
    assert "\"--init" + " " + "--init\"" == ['"'] + "--init --init" + ['"'];
    GluedQuotes(StartCommandFor(v, env), " ", ['"'], "--init --init", ['"']);
  }

  lemma GluedQuotes(line: string, blank: string, opens: string, text: string, closes: string)
    ensures line + blank + opens + text + closes == line + blank + (opens + text + closes)
  {
  }

  lemma QuotedInitsTokens(v: Version, env: string)
    requires ValidEnvironmentName(env)
    ensures RawTokens(QuotedInits(v, env)) == Head(v) + GeneratedArgs(env, QUOTED_INITS)
    ensures Tokens(QuotedInits(v, env)) == Head(v) + GeneratedArgs(env, ["--init --init"])
    ensures !Unterminated(QuotedInits(v, env))
  {
    var plain := GeneratedArgs(env, []);
    GeneratedArgsPlain(env, []);
    LineTokens(v, plain);
    QuotedInitsText(v, env);
    StartCommandIsLine(v, env);
    QuotedWordLast(Line(v, plain), '"', "--init --init");
    assert Head(v) + plain + ["--init --init"] == Head(v) + GeneratedArgs(env, ["--init --init"]);
    QuotedInitsUnquoted();
    HeadPlain(v);
    var ts := Head(v) + GeneratedArgs(env, QUOTED_INITS);
    assert ts == Head(v) + plain + QUOTED_INITS;
    forall t | t in ts ensures t != "" && BlankFree(t) { assert t in Head(v) || t in plain || t in QUOTED_INITS; }
    RawTokensOfJoin([], ts);
    assert [] + ts == ts;
  }

  lemma QuotedInitsServer(v: Version, env: string)
    requires ValidEnvironmentName(env)
    ensures ServerArgs(QuotedInits(v, env)) == GeneratedArgs(env, ["--init --init"])
    ensures HostFlag(QuotedInits(v, env)) == Some(BIND_HOST)
    ensures !ServerWalk(UNSET, ServerArgs(QuotedInits(v, env))).init
  {
    var word := ["--init --init"];
    var args := GeneratedArgs(env, word);
    QuotedInitsTokens(v, env);
    HeadSpec(v, args);
    assert (Head(v) + args)[3..] == args;
    GeneratedArgsRead(map[], None, env, word);
    ServerReadsGenerated(UNSET, env, word);
    DropsUnknown(Some(BIND_HOST), UNSET.(serverRoot := Some("."), config := Some("./publisher.config.json"),
                 host := Some(BIND_HOST), watch := AppendWatch(UNSET.watch, env)));
  }

  lemma DropsUnknown(host: Option<string>, st: Settings)
    ensures HostWalk(host, ["--init --init"]) == host
    ensures ServerWalk(st, ["--init --init"]) == st
  {
    assert ["--init --init"][1..] == [];
  }

  lemma QuotedInitsShape(v: Version, env: string)
    requires ValidEnvironmentName(env)
    ensures Contains(QuotedInits(v, env), SPEC) && Contains(QuotedInits(v, env), "--init")
    ensures forall c | c in QuotedInits(v, env) :: !IsChaining(c) && !IsUnmodelled(c)
  {
    SpecTokenIsServer(v);
    JoinContains(Head(v) + GeneratedArgs(env, QUOTED_INITS), 2, SPEC);
    QuotedInitsText(v, env);
    GeneratedArgsPlain(env, []);
    StartCommandIsLine(v, env);
    LineChars(v, GeneratedArgs(env, []));
    var word := InitsWord();
    InfixContains(StartCommandFor(v, env) + " " + ['"'], word, ['"'], "--init");
    QuotedChars(StartCommandFor(v, env), word);
  }

  lemma InitsWord() returns (word: string)
    ensures word == "--init --init" && "--init" <= word
    ensures forall c | c in word :: c == ' ' || PlainChar(c)
  {
    word := "--init --init";
    forall i | 0 <= i < |word| ensures word[i] == ' ' || PlainChar(word[i]) { }
  }

  lemma QuotedChars(line: string, word: string)
    requires forall c | c in line || c in word :: c == ' ' || PlainChar(c)
    ensures forall c | c in line + " " + ['"'] + word + ['"'] :: !IsChaining(c) && !IsUnmodelled(c)
  {
  }

  const QUOTED_INITS_UNQUOTED: seq<string> := ["--init", "--init"]

  lemma QuotedInitsRead(acc: Boot)
    ensures GeneratedWalk(acc, QUOTED_INITS_UNQUOTED) == Some(acc.(init := true))
  {
    assert QUOTED_INITS_UNQUOTED[1..] == ["--init"] && ["--init"][1..] == [];
  }

  lemma QuotedInitsGenerated(v: Version, env: string)
    requires ValidEnvironmentName(env)
    ensures GeneratedTokens(Head(v) + GeneratedArgs(env, QUOTED_INITS), env, true)
  {
    var args := GeneratedArgs(env, QUOTED_INITS);
    HeadSpec(v, args);
    QuotedInitsStripped(env);
    QuotedInitsPlaced(env);
    assert (Head(v) + args)[3..] == args;
  }

  lemma QuotedInitsStripped(env: string)
    requires ValidEnvironmentName(env)
    ensures UnquoteAll(GeneratedArgs(env, QUOTED_INITS)) == GeneratedArgs(env, QUOTED_INITS_UNQUOTED)
  {
    var plain := GeneratedArgs(env, []);
    GeneratedArgsPlain(env, []);
    PlainTokensAlone(plain);
    QuotedInitsUnquoted();
    UnquoteAllAppend(plain, QUOTED_INITS);
    assert plain + QUOTED_INITS == GeneratedArgs(env, QUOTED_INITS);
    assert plain + QUOTED_INITS_UNQUOTED == GeneratedArgs(env, QUOTED_INITS_UNQUOTED);
  }

  lemma UnquoteAllAppend(a: seq<string>, b: seq<string>)
    ensures UnquoteAll(a + b) == UnquoteAll(a) + UnquoteAll(b)
  {
  }

  lemma QuotedInitsPlaced(env: string)
    requires env != ""
    ensures GeneratedRest(GeneratedArgs(env, QUOTED_INITS_UNQUOTED), env, true)
  {
    GeneratedArgsRead(map[], None, env, QUOTED_INITS_UNQUOTED);
    assert map[] + GeneratedValues(env) == GeneratedValues(env);
    QuotedInitsRead(Boot(GeneratedValues(env), false));
    GeneratedComplete(env, env, true, true);
  }

  /** One quoted word holding a blank: adopted as a reset, while the server is never told to reset. */
  lemma QuotedBlankAdopted(v: Version, env: string)
    requires ValidEnvironmentName(env)
    ensures Adopted(QuotedInits(v, env), env, true)
    ensures !ServerWalk(UNSET, ServerArgs(QuotedInits(v, env))).init
  {
    QuotedInitsTokens(v, env);
    QuotedInitsServer(v, env);
    QuotedInitsShape(v, env);
    QuotedInitsGenerated(v, env);
    HeadSpec(v, GeneratedArgs(env, QUOTED_INITS));
    BindHostIsLoopback();
    VerdictByParts(QuotedInits(v, env), env, true);
  }
}
