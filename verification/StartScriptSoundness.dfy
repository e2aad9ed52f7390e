/**
 * What an adopted script is worth: the address the server binds for every script, and the
 * whole of the server's settings for every script whose quotes hold no blank.
 */
module StartScriptSoundness {
  import opened Text
  import opened ShellWords
  import opened Loopback
  import opened StartScript

  // ---------- The bind address ----------

  /** The analyser's --host walk is the host field of the server's full argument loop. */
  lemma {:induction false} HostWalkIsServerHost(st: Settings, args: seq<string>)
    requires !ServerWalk(st, args).exited
    ensures HostWalk(st.host, args) == ServerWalk(st, args).host
    decreases |args|
  {
    if args != [] {
      if TakesNext(args) {
        HostWalkIsServerHost(SetFlag(st, args[0], args[1]), args[2..]);
      } else if args[0] == "--init" {
        HostWalkIsServerHost(st.(init := true), args[1..]);
      } else if args[0] == "--no-mcp-config" {
        HostWalkIsServerHost(st.(noMcpConfig := true), args[1..]);
      } else {
        HostWalkIsServerHost(st, args[1..]);
      }
    }
  }

  /** However an adopted script is quoted, a server that starts from it listens on loopback. */
  lemma AdoptedBindsLoopback(script: string, env: string, requireInit: bool)
    requires Adopted(script, env, requireInit)
    ensures var st := ServerWalk(UNSET, ServerArgs(script));
            st.exited || (NamesLoopback(RestHost(st)) && (st.mcpHost.None? ==> NamesLoopback(McpHost(st))))
  {
    var st := ServerWalk(UNSET, ServerArgs(script));
    if !st.exited {
      HostWalkIsServerHost(UNSET, ServerArgs(script));
      assert st.host == HostFlag(script) && IsLoopbackHost(st.host.value);
      EmptyIsNotLoopback();
      LoopbackIff(st.host.value);
    }
  }

  lemma {:induction false} HostValuesNotEmpty(value: Option<string>, args: seq<string>)
    requires value != Some("")
    ensures HostWalk(value, args) != Some("")
    decreases |args|
  {
    if args != [] {
      if TakesNext(args) {
        HostValuesNotEmpty(if args[0] == "--host" then Some(args[1]) else value, args[2..]);
      } else {
        HostValuesNotEmpty(value, args[1..]);
      }
    }
  }

  /** The address a decline reports, or its silence, is where the server would have listened. */
  lemma DeclinedHostIsBound(script: string, env: string, requireInit: bool)
    requires DeclineReasonFor(Some(script), env, requireInit).Some?
    requires var d := DeclineReasonFor(Some(script), env, requireInit).value;
             d.reason.NoHostFlag? || d.reason.NonLoopbackHost? || d.reason.NoInitFlag?
    ensures var d := DeclineReasonFor(Some(script), env, requireInit).value;
            var st := ServerWalk(UNSET, ServerArgs(script));
            && (d.reason.NoHostFlag? <==> d.host.None?)
            && (st.exited || RestHost(st) == if d.host.Some? then d.host.value else "0.0.0.0")
  {
    HostValuesNotEmpty(None, ServerArgs(script));
    if !ServerWalk(UNSET, ServerArgs(script)).exited {
      HostWalkIsServerHost(UNSET, ServerArgs(script));
    }
  }

  lemma EmptyIsNotLoopback()
    ensures !IsLoopbackHost("")
  {
  }

  // ---------- Accepted values carry no quote ----------

  lemma DottedLoopbackPlain(s: string)
    requires DottedLoopback(s)
    ensures QuoteFree(s)
  {
    forall c | c in s ensures !IsQuote(c) {
      if c != '.' {
        SplitOnKeepsChars(s, '.', c);
        assert Digits("127");
      }
    }
  }

  lemma LoopbackPlain(host: string)
    requires IsLoopbackHost(host)
    ensures QuoteFree(host) && host != ""
  {
    EmptyIsNotLoopback();
    var inner := StripBrackets(host);
    var bare := Lower(inner);
    assert QuoteFree(bare) by {
      if DottedLoopback(bare) {
        DottedLoopbackPlain(bare);
      }
    }
    forall i | 0 <= i < |host| ensures !IsQuote(host[i]) {
      var shift := if host[0] == '[' then 1 else 0;
      if shift <= i < shift + |inner| {
        assert host[i] == inner[i - shift];
        assert bare[i - shift] == LowerChar(inner[i - shift]);
        assert bare[i - shift] in bare;
      }
    }
  }

  lemma AcceptedPlain(flag: string, value: string, env: string)
    requires Accepts(flag, value, env) && QuoteFree(env) && env != ""
    ensures QuoteFree(value) && value != ""
  {
    if flag == "--host" {
      LoopbackPlain(value);
    }
  }

  // ---------- The two walks in step ----------

  function Field(st: Settings, flag: string): Option<string> {
    if flag == "--server_root" then st.serverRoot
    else if flag == "--config" then st.config
    else st.host
  }

  /** Nothing set beyond what a generated boot sets. */
  predicate Clean(st: Settings) {
    && st.port.None? && st.mcpPort.None? && st.mcpHost.None? && st.drain.None? && st.gracefulClose.None?
    && !st.noMcpConfig && !st.exited
  }

  /**
   * The server's settings track the analyser's map: each value the analyser would accept is
   * the server's, and n watched environments have gone by. In a reset the server may have been
   * told --init before the analyser has seen it.
   */
  predicate InStep(acc: Boot, st: Settings, env: string, requireInit: bool, n: nat) {
    && Clean(st) && (acc.init ==> st.init) && (st.init ==> acc.init || requireInit)
    && FieldsInStep(FIELDS, acc.values, st, env)
    && WatchInStep("--watch-env" in acc.values && acc.values["--watch-env"] == env, st.watch, env, n)
  }

  const FIELDS: seq<string> := ["--server_root", "--config", "--host"]

  predicate FieldsInStep(fields: seq<string>, values: map<string, string>, st: Settings, env: string) {
    forall f | f in fields :: f in values && Accepts(f, values[f], env) ==> Field(st, f) == Some(values[f])
  }

  predicate WatchInStep(last: bool, watch: string, env: string, n: nat) {
    && (n == 0 <==> watch == "")
    && (last ==> n >= 1 && (n == 1 ==> watch == env) && (n >= 2 ==> |watch| > |env|))
  }

  /** Each of the analyser's flags sets its own field of the server's and no other. */
  lemma FlagSetsOwnField(st: Settings, flag: string, value: string)
    requires flag in OWN_FLAGS
    ensures flag in SERVER_VALUE_FLAGS
    ensures var st' := SetFlag(st, flag, value);
            && (Clean(st) ==> Clean(st')) && st'.init == st.init
            && (forall f | f in FIELDS :: Field(st', f) == if f == flag then Some(value) else Field(st, f))
            && st'.watch == if flag == "--watch-env" then AppendWatch(st.watch, value) else st.watch
  {
  }

  /** One flag with its value, read by both sides. */
  lemma PairInStep(acc: Boot, st: Settings, env: string, requireInit: bool, n: nat, flag: string, raw: string)
    requires InStep(acc, st, env, requireInit, n) && flag in OWN_FLAGS
    requires Balanced(raw) && BlankFree(raw) && QuoteFree(env) && env != ""
    ensures var acc' := acc.(values := acc.values[flag := Unquote(raw)]);
            if Dequote(raw) == "" then InStep(acc', st, env, requireInit, n)
            else InStep(acc', SetFlag(st, flag, Dequote(raw)), env, requireInit, if flag == "--watch-env" then n + 1 else n)
  {
    FlagSetsOwnField(st, flag, Dequote(raw));
    if Accepts(flag, Unquote(raw), env) {
      AcceptedPlain(flag, Unquote(raw), env);
      UnquoteIsDequote(raw);
    }
    if flag == "--watch-env" {
      assert Accepts(flag, Unquote(raw), env) <==> Unquote(raw) == env;
      assert !(flag in FIELDS);
    }
  }

  lemma OwnFlagsPlain(flag: string)
    requires flag in OWN_FLAGS || flag == "--init"
    ensures QuoteFree(flag) && flag in SERVER_VALUE_FLAGS + {"--init"}
    ensures flag in OWN_FLAGS ==> flag in SERVER_VALUE_FLAGS && flag != "--init"
    ensures flag != "--no-mcp-config" && flag != "--help" && flag != "-h" && flag != ""
  {
  }

  lemma Tails(raw: seq<string>, k: nat)
    requires k <= |raw|
    ensures DequoteAll(raw)[k..] == DequoteAll(raw[k..])
    ensures UnquoteAll(raw)[k..] == UnquoteAll(raw[k..])
  {
  }

  predicate WellSplit(raw: seq<string>) {
    forall t | t in raw :: Balanced(t) && BlankFree(t)
  }

  // ---------- Words hidden behind an inherited name ----------

  /** The server passes over the first of these arguments. */
  predicate Dropped(args: seq<string>)
    requires args != []
  {
    !TakesNext(args) && args[0] !in ["--init", "--no-mcp-config", "--help", "-h"]
  }

  /** The server's reading of the first argument leaves a boot what the analyser takes it for. */
  predicate Harmless(args: seq<string>, requireInit: bool)
    requires args != []
  {
    Dropped(args) || (args[0] == "--init" && requireInit)
  }

  /**
   * The first word that an inherited name, standing where a flag should, hides from the
   * analyser while the server acts on it. An --init hidden in a reset is what a reset needs.
   */
  function FirstHidden(raw: seq<string>, requireInit: bool): Option<string>
    decreases |raw|
  {
    if |raw| < 2 then None
    else if Unquote(raw[0]) == "--init" then FirstHidden(raw[1..], requireInit)
    else if Unquote(raw[0]) in INHERITED_NAMES && !Harmless(DequoteAll(raw[1..]), requireInit) then Some(Dequote(raw[1]))
    else FirstHidden(raw[2..], requireInit)
  }

  lemma InheritedPlain(name: string)
    requires name in INHERITED_NAMES
    ensures QuoteFree(name) && Dashless(name)
  {
  }

  lemma FlagsStartWithDash()
    ensures forall f | f in SERVER_VALUE_FLAGS || f in OWN_FLAGS || f in FIELDS :: f != "" && f[0] == '-'
  {
  }

  /** A word that an inherited name might be, and no flag is. */
  predicate Dashless(word: string) {
    word != "" && word[0] != '-'
  }

  /** The server passes over an inherited name. */
  lemma ServerDropsInherited(st: Settings, args: seq<string>)
    requires args != [] && Dashless(args[0])
    ensures ServerWalk(st, args) == ServerWalk(st, args[1..]) && WatchCount(args) == WatchCount(args[1..])
  {
    FlagsStartWithDash();
    assert args[0] != "--init" && args[0] != "--no-mcp-config" && args[0] != "--help" && args[0] != "-h";
  }

  /** What the server makes of an inherited name and a harmless word after it. */
  lemma ServerReadsHarmless(st: Settings, args: seq<string>, requireInit: bool)
    requires |args| >= 2 && Dashless(args[0]) && Harmless(args[1..], requireInit)
    ensures var next := if args[1] == "--init" then st.(init := true) else st;
            ServerWalk(st, args) == ServerWalk(next, args[2..])
    ensures WatchCount(args) == WatchCount(args[2..])
  {
    ServerDropsInherited(st, args);
    var tail := args[1..];
    assert tail[0] == args[1] && tail[1..] == args[2..];
    assert !TakesNext(tail);
  }

  lemma StrayInStep(acc: Boot, st: Settings, env: string, requireInit: bool, n: nat, name: string, word: string, init: bool)
    requires InStep(acc, st, env, requireInit, n) && Dashless(name) && (init ==> requireInit)
    ensures InStep(acc.(values := acc.values[name := word]), if init then st.(init := true) else st, env, requireInit, n)
  {
    FlagsStartWithDash();
    assert name != "--watch-env";
    FieldsKeptByStray(FIELDS, acc.values, st, if init then st.(init := true) else st, env, name, word);
  }

  lemma FieldsKeptByStray(fields: seq<string>, values: map<string, string>, st: Settings, st': Settings, env: string,
                          name: string, word: string)
    requires FieldsInStep(fields, values, st, env) && name !in fields
    requires st'.serverRoot == st.serverRoot && st'.config == st.config && st'.host == st.host
    ensures FieldsInStep(fields, values[name := word], st', env)
  {
  }

  lemma AnalyserReadsStray(acc: Boot, rest: seq<string>)
    requires rest != [] && rest[0] in INHERITED_NAMES && GeneratedWalk(acc, rest).Some?
    ensures |rest| >= 2
    ensures GeneratedWalk(acc, rest) == GeneratedWalk(acc.(values := acc.values[rest[0] := rest[1]]), rest[2..])
  {
    InheritedPlain(rest[0]);
  }

  lemma ServerReadsPair(st: Settings, args: seq<string>)
    requires |args| >= 2 && args[0] in OWN_FLAGS
    ensures var next := if args[1] == "" then st else SetFlag(st, args[0], args[1]);
            ServerWalk(st, args) == ServerWalk(next, args[2..])
    ensures WatchCount(args)
         == (if args[1] != "" && args[0] == "--watch-env" then 1 else 0) + WatchCount(args[2..])
  {
  }

  lemma ServerReadsInit(st: Settings, args: seq<string>)
    requires args != [] && args[0] == "--init"
    ensures ServerWalk(st, args) == ServerWalk(st.(init := true), args[1..])
    ensures WatchCount(args) == WatchCount(args[1..])
  {
  }

  lemma AnalyserReadsPair(acc: Boot, rest: seq<string>)
    requires rest != [] && rest[0] != "--init" && rest[0] !in INHERITED_NAMES
    requires GeneratedWalk(acc, rest).Some?
    ensures |rest| >= 2 && rest[0] in OWN_FLAGS
    ensures GeneratedWalk(acc, rest) == GeneratedWalk(acc.(values := acc.values[rest[0] := rest[1]]), rest[2..])
  {
  }

  /** Where the two walks stand: what each has gathered, and the tokens still to come. */
  datatype Place = Place(acc: Boot, st: Settings, watched: nat, raw: seq<string>)

  /** Both walks, and the search for hidden words, go on from q as they would have from p. */
  predicate SameWalks(p: Place, q: Place, requireInit: bool) {
    && GeneratedWalk(p.acc, UnquoteAll(p.raw)) == GeneratedWalk(q.acc, UnquoteAll(q.raw))
    && ServerWalk(p.st, DequoteAll(p.raw)) == ServerWalk(q.st, DequoteAll(q.raw))
    && p.watched + WatchCount(DequoteAll(p.raw)) == q.watched + WatchCount(DequoteAll(q.raw))
    && FirstHidden(p.raw, requireInit) == FirstHidden(q.raw, requireInit)
  }

  lemma PastInit(p: Place, requireInit: bool) returns (q: Place)
    requires WellSplit(p.raw) && p.raw != [] && Unquote(p.raw[0]) == "--init"
    ensures SameWalks(p, q, requireInit) && q.raw == p.raw[1..]
    ensures q.acc == p.acc.(init := true) && q.st == p.st.(init := true) && q.watched == p.watched
  {
    q := Place(p.acc.(init := true), p.st.(init := true), p.watched, p.raw[1..]);
    assert p.raw[0] in p.raw;
    OwnFlagsPlain("--init");
    UnquoteIsDequote(p.raw[0]);
    Tails(p.raw, 1);
    ServerReadsInit(p.st, DequoteAll(p.raw));
    if |p.raw| == 1 {
      assert FirstHidden(p.raw, requireInit) == None == FirstHidden(p.raw[1..], requireInit);
    }
  }

  lemma PastStray(p: Place, requireInit: bool) returns (q: Place)
    requires WellSplit(p.raw) && |p.raw| >= 2 && Unquote(p.raw[0]) in INHERITED_NAMES
    requires GeneratedWalk(p.acc, UnquoteAll(p.raw)).Some? && Harmless(DequoteAll(p.raw)[1..], requireInit)
    ensures SameWalks(p, q, requireInit) && q.raw == p.raw[2..]
    ensures q.acc == p.acc.(values := p.acc.values[Unquote(p.raw[0]) := Unquote(p.raw[1])]) && q.watched == p.watched
    ensures q.st == if Dequote(p.raw[1]) == "--init" then p.st.(init := true) else p.st
  {
    var rest, args := UnquoteAll(p.raw), DequoteAll(p.raw);
    q := Place(p.acc.(values := p.acc.values[rest[0] := rest[1]]), if args[1] == "--init" then p.st.(init := true) else p.st,
               p.watched, p.raw[2..]);
    assert p.raw[0] in p.raw;
    AnalyserReadsStray(p.acc, rest);
    InheritedPlain(rest[0]);
    UnquoteIsDequote(p.raw[0]);
    Tails(p.raw, 1);
    Tails(p.raw, 2);
    ServerReadsHarmless(p.st, args, requireInit);
  }

  lemma PastPair(p: Place, requireInit: bool) returns (q: Place)
    requires WellSplit(p.raw) && p.raw != [] && GeneratedWalk(p.acc, UnquoteAll(p.raw)).Some?
    requires Unquote(p.raw[0]) != "--init" && Unquote(p.raw[0]) !in INHERITED_NAMES
    ensures SameWalks(p, q, requireInit) && |p.raw| >= 2 && q.raw == p.raw[2..] && Unquote(p.raw[0]) in OWN_FLAGS
    ensures q.acc == p.acc.(values := p.acc.values[Unquote(p.raw[0]) := Unquote(p.raw[1])])
    ensures Unquote(p.raw[0]) in SERVER_VALUE_FLAGS
    ensures q.st == if Dequote(p.raw[1]) == "" then p.st else SetFlag(p.st, Unquote(p.raw[0]), Dequote(p.raw[1]))
    ensures q.watched == if Dequote(p.raw[1]) != "" && Unquote(p.raw[0]) == "--watch-env" then p.watched + 1 else p.watched
  {
    var rest, args := UnquoteAll(p.raw), DequoteAll(p.raw);
    assert p.raw[0] in p.raw;
    AnalyserReadsPair(p.acc, rest);
    OwnFlagsPlain(rest[0]);
    UnquoteIsDequote(p.raw[0]);
    Tails(p.raw, 2);
    ServerReadsPair(p.st, args);
    q := Place(p.acc.(values := p.acc.values[rest[0] := rest[1]]),
               if args[1] == "" then p.st else SetFlag(p.st, rest[0], args[1]),
               if args[1] != "" && rest[0] == "--watch-env" then p.watched + 1 else p.watched, p.raw[2..]);
  }

  predicate PlaceInStep(p: Place, env: string, requireInit: bool) {
    InStep(p.acc, p.st, env, requireInit, p.watched)
  }

  /** One flag, bare or with its value or hidden word, keeps the two in step. */
  lemma PlaceAdvances(p: Place, env: string, requireInit: bool) returns (q: Place)
    requires PlaceInStep(p, env, requireInit) && QuoteFree(env) && env != "" && WellSplit(p.raw) && p.raw != []
    requires GeneratedWalk(p.acc, UnquoteAll(p.raw)).Some? && FirstHidden(p.raw, requireInit).None?
    ensures SameWalks(p, q, requireInit) && PlaceInStep(q, env, requireInit)
    ensures |q.raw| < |p.raw| && WellSplit(q.raw)
  {
    var flag := Unquote(p.raw[0]);
    if flag == "--init" {
      q := PastInit(p, requireInit);
    } else if flag in INHERITED_NAMES {
      AnalyserReadsStray(p.acc, UnquoteAll(p.raw));
      Tails(p.raw, 1);
      q := PastStray(p, requireInit);
      InheritedPlain(flag);
      StrayInStep(p.acc, p.st, env, requireInit, p.watched, flag, Unquote(p.raw[1]), Dequote(p.raw[1]) == "--init");
    } else {
      q := PastPair(p, requireInit);
      assert p.raw[1] in p.raw;
      PairInStep(p.acc, p.st, env, requireInit, p.watched, flag, p.raw[1]);
    }
  }

  /** With nothing hidden, the server's settings and the analyser's map stay in step to the end. */
  lemma {:induction false} WalksInStep(p: Place, env: string, requireInit: bool)
    requires PlaceInStep(p, env, requireInit) && QuoteFree(env) && env != "" && WellSplit(p.raw)
    requires GeneratedWalk(p.acc, UnquoteAll(p.raw)).Some? && FirstHidden(p.raw, requireInit).None?
    ensures InStep(GeneratedWalk(p.acc, UnquoteAll(p.raw)).value, ServerWalk(p.st, DequoteAll(p.raw)), env, requireInit,
                   p.watched + WatchCount(DequoteAll(p.raw)))
    decreases |p.raw|
  {
    if p.raw != [] {
      var q := PlaceAdvances(p, env, requireInit);
      WalksInStep(q, env, requireInit);
    }
  }

  // ---------- A hidden word breaks the boot ----------

  /** Settings no further argument can turn into those of a generated boot. */
  predicate Broken(st: Settings, requireInit: bool) {
    !Clean(st) || (st.init && !requireInit)
  }

  lemma {:induction false} BrokenStays(st: Settings, args: seq<string>, requireInit: bool)
    requires Broken(st, requireInit)
    ensures Broken(ServerWalk(st, args), requireInit)
    decreases |args|
  {
    if args != [] {
      if TakesNext(args) {
        BrokenStays(SetFlag(st, args[0], args[1]), args[2..], requireInit);
      } else if args[0] == "--init" {
        BrokenStays(st.(init := true), args[1..], requireInit);
      } else if args[0] == "--no-mcp-config" {
        BrokenStays(st.(noMcpConfig := true), args[1..], requireInit);
      } else if args[0] != "--help" && args[0] != "-h" {
        BrokenStays(st, args[1..], requireInit);
      }
    }
  }

  /** A word the server acts on, other than the analyser's own flags, breaks the boot at once. */
  lemma ActedOnBreaks(st: Settings, args: seq<string>, requireInit: bool)
    requires args != [] && !Harmless(args, requireInit) && args[0] !in OWN_FLAGS
    ensures Broken(ServerWalk(st, args), requireInit)
  {
    if TakesNext(args) {
      BrokenStays(SetFlag(st, args[0], args[1]), args[2..], requireInit);
    } else if args[0] == "--init" {
      BrokenStays(st.(init := true), args[1..], requireInit);
    } else if args[0] == "--no-mcp-config" {
      BrokenStays(st.(noMcpConfig := true), args[1..], requireInit);
    }
  }

  lemma {:induction false} HiddenBreaks(p: Place, requireInit: bool)
    requires WellSplit(p.raw) && GeneratedWalk(p.acc, UnquoteAll(p.raw)).Some?
    requires FirstHidden(p.raw, requireInit).Some? && FirstHidden(p.raw, requireInit).value !in OWN_FLAGS
    ensures Broken(ServerWalk(p.st, DequoteAll(p.raw)), requireInit)
    decreases |p.raw|
  {
    var flag, args := Unquote(p.raw[0]), DequoteAll(p.raw);
    Tails(p.raw, 1);
    if flag == "--init" {
      var q := PastInit(p, requireInit);
      HiddenBreaks(q, requireInit);
    } else if flag !in INHERITED_NAMES {
      var q := PastPair(p, requireInit);
      HiddenBreaks(q, requireInit);
    } else if Harmless(args[1..], requireInit) {
      var q := PastStray(p, requireInit);
      HiddenBreaks(q, requireInit);
    } else {
      assert p.raw[0] in p.raw;
      InheritedPlain(flag);
      UnquoteIsDequote(p.raw[0]);
      ServerDropsInherited(p.st, args);
      ActedOnBreaks(p.st, args[1..], requireInit);
    }
  }

  // ---------- Where the package spec stands ----------

  lemma {:induction false} RawScanBlankFree(done: seq<string>, current: string, s: string)
    requires BlankFree(current) && forall t | t in done :: BlankFree(t)
    ensures forall t | t in RawScan(done, current, s) :: BlankFree(t)
    decreases |s|
  {
    if s != "" {
      var flushed := if current == "" then done else done + [current];
      if IsBlank(s[0]) {
        RawScanBlankFree(flushed, "", s[1..]);
      } else {
        RawScanBlankFree(done, current + [s[0]], s[1..]);
      }
    }
  }

  lemma UnquoteInside(t: string)
    requires SPEC <= Unquote(t)
    ensures Contains(t, SPEC)
  {
  }

  lemma {:induction false} PrefixWords(prefixes: seq<seq<string>>, before: seq<string>)
    ensures var n := PrefixLength(prefixes, before);
            n > 0 ==> exists p | p in prefixes :: p <= before && |p| == n
  {
    if prefixes != [] && !(prefixes[0] <= before) {
      PrefixWords(prefixes[1..], before);
    }
  }

  lemma RunnerLiteralsPlain()
    ensures forall p, t | p in SCRIPT_RUNNER_PREFIXES && t in p :: QuoteFree(t) && BlankFree(t)
    ensures forall t | t in RUNNER_BOOLEAN_FLAGS :: QuoteFree(t) && BlankFree(t)
  {
  }

  lemma RunnerWordsPlain(before: seq<string>)
    requires var n := RunnerPrefixLength(before);
             0 < n <= |before| && forall t | t in before[n..] :: t in RUNNER_BOOLEAN_FLAGS
    ensures forall t | t in before :: QuoteFree(t) && BlankFree(t)
  {
    var n := RunnerPrefixLength(before);
    PrefixWords(SCRIPT_RUNNER_PREFIXES, before);
    RunnerLiteralsPlain();
    var p :| p in SCRIPT_RUNNER_PREFIXES && p <= before && |p| == n;
    forall i | 0 <= i < |before| ensures QuoteFree(before[i]) && BlankFree(before[i]) {
      if i < n {
        assert before[i] == p[i] && p[i] in p;
      } else {
        assert before[i] == before[n..][i - n];
        assert before[i] in before[n..];
      }
    }
  }

  lemma ServerSpecPlain(command: string)
    requires ServerSpec(command)
    ensures QuoteFree(command) && SPEC <= command
  {
    if command != SPEC {
      var v := command[|SPEC| + 1..];
      assert command == SPEC + "@" + v;
      forall c | c in command ensures !IsQuote(c) {
        assert c in SPEC || c == '@' || c in v;
      }
    }
  }

  /** All three searches for the package spec stop at the same token. */
  lemma SpecIndicesAgree(raw: seq<string>)
    requires SingleServerTokens(raw)
    requires forall t | t in raw :: Balanced(t) && BlankFree(t)
    ensures SpecIndex(raw).Some? && GeneratedSpecIndex(raw) == SpecIndex(raw) == SpecIndex(DequoteAll(raw))
  {
    var i := SpecIndex(raw).value;
    var n := RunnerPrefixLength(raw[..i]);
    assert raw[..i][n..] == raw[n..i];
    RunnerWordsPlain(raw[..i]);
    ServerSpecPlain(Unquote(raw[i]));
    UnquoteIsDequote(raw[i]);
    var args := DequoteAll(raw);
    assert Contains(args[i], SPEC);
    forall j | 0 <= j < i ensures !(SPEC <= Unquote(raw[j])) && !Contains(args[j], SPEC) {
      if SPEC <= Unquote(raw[j]) {
        UnquoteInside(raw[j]);
      }
      assert raw[..i][j] in raw[..i];
      DequotePlain(raw[j]);
    }
    FirstAt(raw, (t: string) => SPEC <= Unquote(t), i);
    FirstAt(args, (t: string) => Contains(t, SPEC), i);
  }

  lemma FirstAt(ts: seq<string>, p: string -> bool, i: nat)
    requires i < |ts| && p(ts[i]) && forall j | 0 <= j < i :: !p(ts[j])
    ensures FirstIndex(ts, p) == Some(i)
  {
  }

  // ---------- Exact adoption ----------

  /** The settings of a generated boot, apart from what it watches. */
  ghost predicate BootsThisWorkspace(st: Settings, requireInit: bool) {
    && Clean(st) && st.init == requireInit
    && (st.serverRoot == Some(".") || st.serverRoot == Some("./"))
    && (st.config == Some("./publisher.config.json") || st.config == Some("publisher.config.json"))
    && st.host.Some? && NamesLoopback(st.host.value)
  }

  lemma FieldSet(b: Boot, st: Settings, env: string, f: string)
    requires AllAccepted(OWN_FLAGS, b.values, env) && FieldsInStep(FIELDS, b.values, st, env) && f in FIELDS
    ensures f in b.values && Field(st, f) == Some(b.values[f]) && Accepts(f, b.values[f], env)
  {
  }

  /** A complete boot the server followed in step is a boot of this workspace. */
  lemma InStepBoots(b: Boot, st: Settings, env: string, requireInit: bool, n: nat)
    requires InStep(b, st, env, requireInit, n) && CompleteBoot(b, env, requireInit)
    ensures BootsThisWorkspace(st, requireInit) && (st.watch == env <==> n == 1)
  {
    FieldSet(b, st, env, "--server_root");
    FieldSet(b, st, env, "--config");
    FieldSet(b, st, env, "--host");
    LoopbackIff(b.values["--host"]);
    assert "--watch-env" in OWN_FLAGS;
  }

  /** With quotes holding no blank, the server's arguments are the tokens past the spec. */
  lemma ServerArgsPastSpec(script: string) returns (i: nat)
    requires !Unterminated(script) && QuotesHoldNoBlank(None, script)
    requires SingleServerTokens(RawTokens(script))
    ensures var raw := RawTokens(script);
            && i < |raw| && GeneratedSpecIndex(raw) == Some(i)
            && ServerArgs(script) == DequoteAll(raw[i + 1..])
            && WellSplit(raw[i + 1..])
  {
    var raw := RawTokens(script);
    SplitsAgree(script);
    RawScanBlankFree([], "", script);
    SpecIndicesAgree(raw);
    i := SpecIndex(raw).value;
    Tails(raw, i + 1);
  }

  lemma AdoptedParts(script: string, env: string, requireInit: bool)
    requires Adopted(script, env, requireInit)
    ensures !Unterminated(script) && SingleServerTokens(RawTokens(script))
    ensures GeneratedTokens(RawTokens(script), env, requireInit)
  {
  }

  lemma NothingReadYet(env: string, requireInit: bool)
    ensures InStep(Boot(map[], false), UNSET, env, requireInit, 0)
  {
  }

  lemma RestBoots(raw: seq<string>, env: string, requireInit: bool)
    requires GeneratedRest(UnquoteAll(raw), env, requireInit)
    requires QuoteFree(env) && env != "" && WellSplit(raw) && FirstHidden(raw, requireInit).None?
    ensures var st := ServerWalk(UNSET, DequoteAll(raw));
            BootsThisWorkspace(st, requireInit) && (st.watch == env <==> WatchCount(DequoteAll(raw)) == 1)
  {
    var b := GeneratedWalk(Boot(map[], false), UnquoteAll(raw)).value;
    var st, n := ServerWalk(UNSET, DequoteAll(raw)), WatchCount(DequoteAll(raw));
    assert InStep(b, st, env, requireInit, n) by {
      NothingReadYet(env, requireInit);
      WalksInStep(Place(Boot(map[], false), UNSET, 0, raw), env, requireInit);
    }
    InStepBoots(b, st, env, requireInit, n);
  }

  lemma RestOfTokens(raw: seq<string>, i: nat, env: string, requireInit: bool)
    requires i < |raw| && GeneratedSpecIndex(raw) == Some(i) && GeneratedTokens(raw, env, requireInit)
    ensures GeneratedRest(UnquotedPast(raw, i), env, requireInit)
  {
  }

  /** The first word an adopted script hides from the analyser, if any. */
  function HiddenWord(script: string, requireInit: bool): Option<string> {
    var raw := RawTokens(script);
    match GeneratedSpecIndex(raw)
    case None => None
    case Some(i) => FirstHidden(raw[i + 1..], requireInit)
  }

  lemma HiddenPastSpec(script: string, requireInit: bool, i: nat)
    requires GeneratedSpecIndex(RawTokens(script)) == Some(i) && i < |RawTokens(script)|
    ensures HiddenWord(script, requireInit) == FirstHidden(RawTokens(script)[i + 1..], requireInit)
  {
  }

  /** The raw tokens past the package spec: what the server is given, and what the analyser took. */
  lemma AdoptedRest(script: string, env: string, requireInit: bool) returns (mine: seq<string>)
    requires Adopted(script, env, requireInit) && QuotesHoldNoBlank(None, script)
    ensures ServerArgs(script) == DequoteAll(mine) && WellSplit(mine)
    ensures GeneratedRest(UnquoteAll(mine), env, requireInit)
    ensures HiddenWord(script, requireInit) == FirstHidden(mine, requireInit)
  {
    AdoptedParts(script, env, requireInit);
    var i := ServerArgsPastSpec(script);
    mine := RawTokens(script)[i + 1..];
    RestOfTokens(RawTokens(script), i, env, requireInit);
    assert UnquotedPast(RawTokens(script), i) == UnquoteAll(mine);
    HiddenPastSpec(script, requireInit, i);
  }

  lemma HiddenRestBreaks(raw: seq<string>, env: string, requireInit: bool)
    requires GeneratedRest(UnquoteAll(raw), env, requireInit) && WellSplit(raw)
    requires FirstHidden(raw, requireInit).Some? && FirstHidden(raw, requireInit).value !in OWN_FLAGS
    ensures !BootsThisWorkspace(ServerWalk(UNSET, DequoteAll(raw)), requireInit)
  {
    HiddenBreaks(Place(Boot(map[], false), UNSET, 0, raw), requireInit);
  }

  /**
   * An adopted script boots this workspace and nothing else exactly when no inherited name
   * hides a word from the analyser that the server acts on. (One of the analyser's own flags,
   * so hidden, may go either way.) And what the server watches is then the environment the
   * analyser was asked about exactly when --watch-env is given once, because the server
   * gathers repeats where the analyser keeps the last.
   */
  lemma ExactAdoption(script: string, env: string, requireInit: bool)
    requires Adopted(script, env, requireInit)
    requires QuoteFree(env) && env != ""
    requires QuotesHoldNoBlank(None, script)
    requires var hidden := HiddenWord(script, requireInit); hidden.None? || hidden.value !in OWN_FLAGS
    ensures var st := ServerWalk(UNSET, ServerArgs(script));
            && (BootsThisWorkspace(st, requireInit) <==> HiddenWord(script, requireInit).None?)
            && (HiddenWord(script, requireInit).None? ==> (st.watch == env <==> WatchCount(ServerArgs(script)) == 1))
  {
    var mine := AdoptedRest(script, env, requireInit);
    if FirstHidden(mine, requireInit).None? {
      RestBoots(mine, env, requireInit);
    } else {
      HiddenRestBreaks(mine, env, requireInit);
    }
  }
}
