/**
 * The analyser that decides whether a package.json script is a Publisher boot the
 * scaffolder could have written itself, and the server's own reading of its arguments.
 */
module StartScript {
  import opened Text
  import opened ShellWords
  import opened Loopback

  const SPEC := "@malloy-publisher/server"

  // ---------- Environment names ----------

  predicate SafeNameChar(c: char) {
    'A' <= c <= 'Z' || 'a' <= c <= 'z' || '0' <= c <= '9' || c == '.' || c == '_' || c == '-'
  }

  /** What validateEnvironmentName lets through. */
  predicate ValidEnvironmentName(name: string) {
    0 < |name| <= 255 && name[0] != '.' && forall c | c in name :: SafeNameChar(c)
  }

  // ---------- The server's argument loop ----------

  datatype Settings = Settings(
    port: Option<string>, host: Option<string>, serverRoot: Option<string>, config: Option<string>,
    mcpPort: Option<string>, mcpHost: Option<string>, drain: Option<string>, gracefulClose: Option<string>,
    watch: string, init: bool, noMcpConfig: bool, exited: bool)

  const UNSET := Settings(None, None, None, None, None, None, None, None, "", false, false, false)

  /** Successive --watch-env values accumulate, separated by commas. */
  function AppendWatch(existing: string, value: string): string {
    if existing == "" then value else existing + "," + value
  }

  const SERVER_VALUE_FLAGS: set<string> := {
    "--port", "--host", "--server_root", "--config", "--mcp_port", "--mcp_host",
    "--shutdown_drain_duration_seconds", "--shutdown_graceful_close_timeout_seconds", "--watch-env"
  }

  function SetFlag(st: Settings, flag: string, value: string): Settings
    requires flag in SERVER_VALUE_FLAGS
  {
    if flag == "--port" then st.(port := Some(value))
    else if flag == "--host" then st.(host := Some(value))
    else if flag == "--server_root" then st.(serverRoot := Some(value))
    else if flag == "--config" then st.(config := Some(value))
    else if flag == "--mcp_port" then st.(mcpPort := Some(value))
    else if flag == "--mcp_host" then st.(mcpHost := Some(value))
    else if flag == "--shutdown_drain_duration_seconds" then st.(drain := Some(value))
    else if flag == "--shutdown_graceful_close_timeout_seconds" then st.(gracefulClose := Some(value))
    else st.(watch := AppendWatch(st.watch, value))
  }

  /** A value flag takes the next argument only if there is one and it is not empty. */
  predicate TakesNext(args: seq<string>) {
    |args| >= 2 && args[0] in SERVER_VALUE_FLAGS && args[1] != ""
  }

  function ServerWalk(st: Settings, args: seq<string>): Settings
    decreases |args|
  {
    if args == [] then st
    else if TakesNext(args) then ServerWalk(SetFlag(st, args[0], args[1]), args[2..])
    else if args[0] == "--init" then ServerWalk(st.(init := true), args[1..])
    else if args[0] == "--no-mcp-config" then ServerWalk(st.(noMcpConfig := true), args[1..])
    else if args[0] == "--help" || args[0] == "-h" then st.(exited := true)
    else ServerWalk(st, args[1..])
  }

  /** Where the REST listener binds. */
  function RestHost(st: Settings): string {
    if st.host.Some? && st.host.value != "" then st.host.value else "0.0.0.0"
  }

  /** Where the MCP listener binds. */
  function McpHost(st: Settings): string {
    if st.mcpHost.Some? && st.mcpHost.value != "" then st.mcpHost.value
    else if st.host.Some? && st.host.value != "" then st.host.value else "127.0.0.1"
  }

  /** How many --watch-env options the server acts on. */
  function WatchCount(args: seq<string>): nat
    decreases |args|
  {
    if args == [] then 0
    else if TakesNext(args) then (if args[0] == "--watch-env" then 1 else 0) + WatchCount(args[2..])
    else WatchCount(args[1..])
  }

  // ---------- Finding the package spec ----------

  function FirstIndex(ts: seq<string>, p: string -> bool): (r: Option<nat>)
    ensures r.None? ==> forall t | t in ts :: !p(t)
    ensures r.Some? ==> r.value < |ts| && p(ts[r.value]) && forall j | 0 <= j < r.value :: !p(ts[j])
  {
    if ts == [] then None
    else if p(ts[0]) then Some(0)
    else
      match FirstIndex(ts[1..], p)
      case None => None
      case Some(i) => Some(i + 1)
  }

  function SpecIndex(ts: seq<string>): Option<nat> {
    FirstIndex(ts, (t: string) => Contains(t, SPEC))
  }

  /** What the server is handed once the runner has consumed its own part of the line. */
  function ServerArgs(script: string): seq<string> {
    var ts := Tokens(script);
    match SpecIndex(ts)
    case None => []
    case Some(i) => ts[i + 1..]
  }

  // ---------- --host, as the analyser reads it ----------

  function HostWalk(value: Option<string>, args: seq<string>): Option<string>
    decreases |args|
  {
    if args == [] then value
    else if TakesNext(args) then HostWalk(if args[0] == "--host" then Some(args[1]) else value, args[2..])
    else HostWalk(value, args[1..])
  }

  function HostFlag(script: string): Option<string> {
    HostWalk(None, ServerArgs(script))
  }

  method HostFlagOf(script: string) returns (value: Option<string>)
    ensures value == HostFlag(script)
  {
    var tokens := ShellTokens(script);
    var spec := SpecIndex(tokens);
    if spec.None? {
      return None;
    }
    ghost var args := tokens[spec.value + 1..];
    value := None;
    var i := spec.value + 1;
    while i < |tokens|
      invariant spec.value < i <= |tokens|
      invariant HostWalk(value, tokens[i..]) == HostWalk(None, args)
    {
      ghost var rest := tokens[i..];
      assert rest[1..] == tokens[i + 1..];
      var token := tokens[i];
      if i + 1 == |tokens| || token !in SERVER_VALUE_FLAGS || tokens[i + 1] == "" {
        assert !TakesNext(rest);
        i := i + 1;
        continue;
      }
      assert TakesNext(rest) && rest[2..] == tokens[i + 2..];
      if token == "--host" {
        value := Some(tokens[i + 1]);
      }
      i := i + 2;
    }
    assert tokens[i..] == [];
  }

  // ---------- The shape of the whole command ----------

  predicate IsChaining(c: char) {
    c == '&' || c == '|' || c == ';' || c == '<' || c == '>' || c == '\n' || c == '\r'
  }

  predicate IsUnmodelled(c: char) {
    c == '`' || c == '$' || c == '(' || c == ')' || c == '#' || c == '\\'
  }

  const SCRIPT_RUNNER_PREFIXES: seq<seq<string>> :=
    [["npx"], ["bunx"], ["pnpx"], ["pnpm", "dlx"], ["yarn", "dlx"], ["bun", "x"]]

  function PrefixLength(prefixes: seq<seq<string>>, before: seq<string>): nat {
    if prefixes == [] then 0
    else if prefixes[0] <= before then |prefixes[0]|
    else PrefixLength(prefixes[1..], before)
  }

  function RunnerPrefixLength(before: seq<string>): nat {
    PrefixLength(SCRIPT_RUNNER_PREFIXES, before)
  }

  const RUNNER_BOOLEAN_FLAGS: set<string> := {"-y", "--yes", "-q", "--quiet", "--silent"}

  predicate Alphanumeric(c: char) {
    'A' <= c <= 'Z' || 'a' <= c <= 'z' || '0' <= c <= '9'
  }

  /** A version or tag npm resolves from the registry, and no local tarball. */
  predicate RegistryVersion(v: string) {
    && v != "" && Alphanumeric(v[0])
    && (forall c | c in v :: Alphanumeric(c) || c == '.' || c == '-')
    && !EndsWith(Lower(v), ".tgz") && !EndsWith(Lower(v), ".tar.gz") && !EndsWith(Lower(v), ".tar")
  }

  predicate ServerSpec(command: string) {
    command == SPEC || (SPEC + "@" <= command && RegistryVersion(command[|SPEC| + 1..]))
  }

  /** The token-level half of isSingleServerInvocation. */
  predicate SingleServerTokens(tokens: seq<string>) {
    match SpecIndex(tokens)
    case None => false
    case Some(i) =>
      && ServerSpec(Unquote(tokens[i]))
      && var n := RunnerPrefixLength(tokens[..i]);
         && 0 < n <= i
         && forall t | t in tokens[n..i] :: t in RUNNER_BOOLEAN_FLAGS
  }

  predicate SingleServerInvocation(script: string) {
    (forall c | c in script :: !IsChaining(c)) && SingleServerTokens(RawTokens(script))
  }

  // ---------- Flag by flag: the boot this tool writes ----------

  const OWN_FLAGS: seq<string> := ["--server_root", "--config", "--host", "--watch-env"]

  /** Names a plain JavaScript object answers to without owning them. */
  const INHERITED_NAMES: set<string> := {
    "constructor", "toString", "toLocaleString", "valueOf", "hasOwnProperty", "isPrototypeOf",
    "propertyIsEnumerable", "__proto__", "__defineGetter__", "__defineSetter__",
    "__lookupGetter__", "__lookupSetter__"
  }

  predicate Accepts(flag: string, value: string, env: string) {
    if flag == "--server_root" then value == "." || value == "./"
    else if flag == "--config" then value == "./publisher.config.json" || value == "publisher.config.json"
    else if flag == "--host" then IsLoopbackHost(value)
    else flag == "--watch-env" && value == env
  }

  datatype Boot = Boot(values: map<string, string>, init: bool)

  /** The analyser's walk; None where it meets a token it cannot place. */
  function GeneratedWalk(acc: Boot, rest: seq<string>): Option<Boot>
    decreases |rest|
  {
    if rest == [] then Some(acc)
    else if rest[0] == "--init" then GeneratedWalk(acc.(init := true), rest[1..])
    else if rest[0] !in OWN_FLAGS && rest[0] !in INHERITED_NAMES then None
    else if |rest| == 1 then None
    else GeneratedWalk(acc.(values := acc.values[rest[0] := rest[1]]), rest[2..])
  }

  function UnquoteAll(ts: seq<string>): (r: seq<string>)
    ensures |r| == |ts| && forall i | 0 <= i < |ts| :: r[i] == Unquote(ts[i])
  {
    seq(|ts|, i requires 0 <= i < |ts| => Unquote(ts[i]))
  }

  function GeneratedSpecIndex(ts: seq<string>): (r: Option<nat>)
    ensures r.Some? ==> r.value < |ts|
  {
    FirstIndex(ts, (t: string) => SPEC <= Unquote(t))
  }

  predicate AllAccepted(flags: seq<string>, values: map<string, string>, env: string) {
    forall f | f in flags :: f in values && Accepts(f, values[f], env)
  }

  predicate CompleteBoot(b: Boot, env: string, requireInit: bool) {
    AllAccepted(OWN_FLAGS, b.values, env) && b.init == requireInit
  }

  predicate GeneratedRest(rest: seq<string>, env: string, requireInit: bool) {
    match GeneratedWalk(Boot(map[], false), rest)
    case None => false
    case Some(b) => CompleteBoot(b, env, requireInit)
  }

  /** The token-level half of matchesGeneratedInvocation. */
  predicate GeneratedTokens(tokens: seq<string>, env: string, requireInit: bool) {
    var i := GeneratedSpecIndex(tokens);
    i.Some? && GeneratedRest(UnquotedPast(tokens, i.value), env, requireInit)
  }

  /** The tokens after the package spec, each without its outer quotes. */
  function UnquotedPast(tokens: seq<string>, spec: nat): seq<string>
    requires spec < |tokens|
  {
    UnquoteAll(tokens[spec + 1..])
  }

  /** The flag loop of matchesGeneratedInvocation. */
  method ReadFlags(rest: seq<string>) returns (boot: Option<Boot>)
    ensures boot == GeneratedWalk(Boot(map[], false), rest)
  {
    var values: map<string, string>, init := map[], false;
    var i := 0;
    while i < |rest|
      invariant 0 <= i <= |rest|
      invariant GeneratedWalk(Boot(values, init), rest[i..]) == GeneratedWalk(Boot(map[], false), rest)
    {
      ghost var here := rest[i..];
      assert here[1..] == rest[i + 1..];
      var flag := rest[i];
      if flag == "--init" {
        init := true;
        i := i + 1;
        continue;
      }
      if flag !in OWN_FLAGS && flag !in INHERITED_NAMES {
        return None;
      }
      if i + 1 == |rest| {
        return None;
      }
      assert here[2..] == rest[i + 2..];
      values := values[flag := rest[i + 1]];
      i := i + 2;
    }
    assert rest[i..] == [];
    boot := Some(Boot(values, init));
  }

  /** Its second loop: each flag is there, with a value that may be. */
  method AcceptsAll(flags: seq<string>, values: map<string, string>, env: string) returns (ok: bool)
    ensures ok == AllAccepted(flags, values, env)
  {
    for k := 0 to |flags|
      invariant AllAccepted(flags[..k], values, env)
    {
      var flag := flags[k];
      assert flag in flags;
      if flag !in values || !Accepts(flag, values[flag], env) {
        return false;
      }
    }
    ok := true;
  }

  method MatchesRest(rest: seq<string>, env: string, requireInit: bool) returns (matched: bool)
    ensures matched == GeneratedRest(rest, env, requireInit)
  {
    matched := false;
    var boot := ReadFlags(rest);
    if boot.Some? {
      var accepted := AcceptsAll(OWN_FLAGS, boot.value.values, env);
      matched := accepted && boot.value.init == requireInit;
    }
  }

  method MatchesGeneratedInvocation(script: string, env: string, requireInit: bool) returns (matched: bool)
    ensures matched == GeneratedTokens(RawTokens(script), env, requireInit)
  {
    var tokens := RawTokens(script);
    var index := GeneratedSpecIndex(tokens);
    matched := false;
    if index.Some? {
      matched := MatchesRest(UnquotedPast(tokens, index.value), env, requireInit);
    }
  }

  // ---------- The verdict ----------

  datatype Reason =
    | NotPublisher | UnmodelledShellSyntax | Unparseable | UnrecognisedShape
    | NoHostFlag | NonLoopbackHost | NoInitFlag | DifferentInvocation

  datatype DeclinedScript = DeclinedScript(reason: Reason, host: Option<string>)

  predicate HoldsUnmodelled(script: string) {
    exists c :: c in script && IsUnmodelled(c)
  }

  /** The first checks, on the script as a whole. */
  function ShapeReason(mentions: bool, unmodelled: bool, unterminated: bool, single: bool): Option<Reason> {
    if !mentions then Some(NotPublisher)
    else if unmodelled then Some(UnmodelledShellSyntax)
    else if unterminated then Some(Unparseable)
    else if !single then Some(UnrecognisedShape)
    else None
  }

  /** The last checks, on what has been read off the script. */
  function BootReason(host: Option<string>, lacksInit: bool, generated: bool): Option<DeclinedScript> {
    if host.None? then Some(DeclinedScript(NoHostFlag, None))
    else if !IsLoopbackHost(host.value) then Some(DeclinedScript(NonLoopbackHost, host))
    else if lacksInit then Some(DeclinedScript(NoInitFlag, host))
    else if !generated then Some(DeclinedScript(DifferentInvocation, None))
    else None
  }

  /** Why a scripts entry was not adopted; None when it was, or when there is no entry. */
  function DeclineReasonFor(entry: Option<string>, env: string, requireInit: bool): Option<DeclinedScript> {
    match entry
    case None => None
    case Some(script) =>
      var reason := ShapeReason(Contains(script, SPEC), HoldsUnmodelled(script), Unterminated(script),
                                SingleServerInvocation(script));
      if reason.Some? then Some(DeclinedScript(reason.value, None))
      else
        BootReason(HostFlag(script), requireInit && !Contains(script, "--init"),
                   GeneratedTokens(RawTokens(script), env, requireInit))
  }

  predicate IsPublisherScript(entry: Option<string>, env: string, requireInit: bool) {
    entry.Some? && DeclineReasonFor(entry, env, requireInit).None?
  }

  predicate Adopted(script: string, env: string, requireInit: bool) {
    IsPublisherScript(Some(script), env, requireInit)
  }

  // ---------- The commands this tool writes ----------

  /** The version a scaffolder pins, filled in when it is published: any the registry resolves. */
  type Version = v: string | RegistryVersion(v) witness "1"

  const BIND_HOST := "127.0.0.1"

  function StartCommandFor(v: Version, env: string): string {
    "npx -y " + SPEC + "@" + v + " --server_root . "
    + "--config ./publisher.config.json --host " + BIND_HOST + " "
    + "--watch-env " + env
  }

  function ResetCommandFor(v: Version, env: string): string {
    StartCommandFor(v, env) + " --init"
  }

  function WithAlternatePorts(command: string, viaNpmScript: bool): string {
    command + (if viaNpmScript then " --" else "") + " --port 4100 --mcp_port 4140"
  }
}
