/**
 * Two loops that must agree: the scenario parser writes on each step the mode it believes the
 * publisher is running in, and the interpreter, which never reads that field, boots and
 * switches publishers as it goes.
 */
module ScenarioMode {
  import opened Text
  import opened Cluster

  // ---------- The parser ----------

  /** A header attribute: `(flag)` or `(key=value)`. */
  datatype Attr = Flag | Value(text: string)

  type Attrs = map<string, Attr>

  /**
   * A section as far as modes go: its header's argument and attributes, and what its body
   * says about the mode and the environment. Work is any section that talks to a publisher;
   * Aside one that does not.
   */
  datatype Section =
    | PublisherSection(arg: string, attrs: Attrs, bodyMode: Option<string>, hasEnv: bool)
    | RestartSection(attrs: Attrs)
    | WorkSection(attrs: Attrs)
    | AsideSection

  datatype Step =
    | PublisherStep(mode: Mode, name: Option<string>, hasEnv: bool)
    | RestartStep(mode: Mode, init: bool)
    | WorkStep(mode: Mode, pub: Option<Attr>)
    | AsideStep

  function ModeOfAttr(a: Attr): Mode {
    match a case Flag => Bare case Value(text) => Named(text)
  }

  /** The first of the bare flags, in the order the parser tries them. */
  function BareMode(attrs: Attrs): Option<Mode> {
    if "off" in attrs && attrs["off"].Flag? then Some(Named("off"))
    else if "write-only" in attrs && attrs["write-only"].Flag? then Some(Named("write-only"))
    else if "on" in attrs && attrs["on"].Flag? then Some(Named("on"))
    else None
  }

  function DeclaredMode(s: Section): Option<Mode>
    requires s.PublisherSection?
  {
    if "mode" in s.attrs then Some(ModeOfAttr(s.attrs["mode"]))
    else if BareMode(s.attrs).Some? then BareMode(s.attrs)
    else if s.bodyMode.Some? then Some(Named(s.bodyMode.value))
    else None
  }

  /** A declared mode counts unless it is the empty text. */
  function NextMode(current: Mode, s: Section): Mode {
    if s.PublisherSection? && DeclaredMode(s).Some? && DeclaredMode(s).value != Named("") then DeclaredMode(s).value
    else current
  }

  function StepOf(current: Mode, s: Section): Step {
    match s
    case PublisherSection(arg, _, _, hasEnv) =>
      PublisherStep(NextMode(current, s), if Trim(arg) == "" then None else Some(Trim(arg)), hasEnv)
    case RestartSection(attrs) =>
      RestartStep(current, "init" in attrs && attrs["init"] != Value(""))
    case WorkSection(attrs) => WorkStep(current, if "pub" in attrs then Some(attrs["pub"]) else None)
    case AsideSection => AsideStep
  }

  function Parsed(current: Mode, sections: seq<Section>): seq<Step>
    decreases |sections|
  {
    if sections == [] then []
    else [StepOf(current, sections[0])] + Parsed(NextMode(current, sections[0]), sections[1..])
  }

  /** Front matter may set the starting mode; it is "on" otherwise. */
  function StartMode(frontMatter: Option<string>): Mode {
    match frontMatter case None => Named("on") case Some(m) => Named(m)
  }

  lemma ParsedMore(before: seq<Step>, mode: Mode, sections: seq<Section>)
    requires sections != []
    ensures before + [StepOf(mode, sections[0])] + Parsed(NextMode(mode, sections[0]), sections[1..])
         == before + Parsed(mode, sections)
  {
  }

  // ---------- What the parser records, written out ----------

  predicate HasFlag(attrs: Attrs, name: string) {
    name in attrs && attrs[name] == Flag
  }

  /** A Publisher section sets the mode: by mode=, else by a bare flag, else in its body. */
  predicate Sets(s: Section, m: Mode) {
    s.PublisherSection? && m != Named("") &&
    if "mode" in s.attrs then m == (match s.attrs["mode"] case Flag => Bare case Value(text) => Named(text))
    else if HasFlag(s.attrs, "off") then m == Named("off")
    else if HasFlag(s.attrs, "write-only") then m == Named("write-only")
    else if HasFlag(s.attrs, "on") then m == Named("on")
    else s.bodyMode.Some? && m == Named(s.bodyMode.value)
  }

  ghost predicate Keeps(s: Section) {
    forall m :: !Sets(s, m)
  }

  /** At section i the last mode set, up to and at it, is m; or none was and m is where it started. */
  ghost predicate InForce(start: Mode, sections: seq<Section>, i: nat, m: Mode)
    requires i < |sections|
  {
    || (m == start && forall k | 0 <= k <= i :: Keeps(sections[k]))
    || exists k :: 0 <= k <= i && Sets(sections[k], m) && forall l | k < l <= i :: Keeps(sections[l])
  }

  /** The step a section becomes, the mode in force aside. */
  predicate StepFor(s: Section, step: Step) {
    match s
    case PublisherSection(arg, _, _, hasEnv) =>
      step.PublisherStep? && step.hasEnv == hasEnv && step.name == if Trim(arg) == "" then None else Some(Trim(arg))
    case RestartSection(attrs) => step.RestartStep? && (step.init <==> "init" in attrs && attrs["init"] != Value(""))
    case WorkSection(attrs) => step.WorkStep? && step.pub == if "pub" in attrs then Some(attrs["pub"]) else None
    case AsideSection => step == AsideStep
  }

  ghost predicate Records(start: Mode, sections: seq<Section>, steps: seq<Step>) {
    && |steps| == |sections|
    && forall i | 0 <= i < |sections| ::
         StepFor(sections[i], steps[i]) && (sections[i].AsideSection? || InForce(start, sections, i, steps[i].mode))
  }

  lemma NextModeInForce(current: Mode, s: Section)
    ensures if NextMode(current, s) == current && !Sets(s, current) then Keeps(s) else Sets(s, NextMode(current, s))
  {
  }

  lemma InForceEarlier(start: Mode, s: Section, rest: seq<Section>, i: nat, m: Mode)
    requires i < |rest| && InForce(NextMode(start, s), rest, i, m)
    ensures InForce(start, [s] + rest, i + 1, m)
  {
    var all := [s] + rest;
    assert forall k | 0 <= k <= i :: all[k + 1] == rest[k];
    NextModeInForce(start, s);
    if m == NextMode(start, s) && forall k | 0 <= k <= i :: Keeps(rest[k]) {
      forall l | 0 < l <= i + 1 ensures Keeps(all[l]) { assert all[l] == rest[l - 1]; }
      if Sets(s, m) {
        assert Sets(all[0], m);
      } else {
        assert Keeps(all[0]);
      }
    } else {
      var k :| 0 <= k <= i && Sets(rest[k], m) && forall l | k < l <= i :: Keeps(rest[l]);
      assert Sets(all[k + 1], m);
      forall l | k + 1 < l <= i + 1 ensures Keeps(all[l]) { assert all[l] == rest[l - 1]; }
    }
  }

  /** The parser records for every section its own step, in the mode in force there. */
  lemma {:induction false} ParsedRecords(start: Mode, sections: seq<Section>)
    ensures Records(start, sections, Parsed(start, sections))
    decreases |sections|
  {
    if sections != [] {
      var s, rest := sections[0], sections[1..];
      var steps := Parsed(start, sections);
      ParsedRecords(NextMode(start, s), rest);
      assert steps[1..] == Parsed(NextMode(start, s), rest) && [s] + rest == sections;
      forall i | 0 <= i < |sections|
        ensures StepFor(sections[i], steps[i]) && (sections[i].AsideSection? || InForce(start, sections, i, steps[i].mode))
      {
        if i == 0 {
          NextModeInForce(start, s);
        } else {
          assert sections[i] == rest[i - 1] && steps[i] == steps[1..][i - 1];
          if !rest[i - 1].AsideSection? {
            InForceEarlier(start, s, rest, i - 1, steps[i].mode);
          }
        }
      }
    }
  }

  method ParseMarkdown(frontMatter: Option<string>, sections: seq<Section>) returns (steps: seq<Step>)
    ensures steps == Parsed(StartMode(frontMatter), sections)
    ensures Records(if frontMatter.Some? then Named(frontMatter.value) else Named("on"), sections, steps)
  {
    var currentMode := StartMode(frontMatter);
    steps := [];
    for i := 0 to |sections|
      invariant steps + Parsed(currentMode, sections[i..]) == Parsed(StartMode(frontMatter), sections)
    {
      var sec := sections[i];
      ghost var before := steps;
      ghost var mode := currentMode;
      assert sections[i..][1..] == sections[i + 1..];
      match sec {
        case PublisherSection(arg, attrs, bodyMode, hasEnv) =>
          var m := DeclaredMode(sec);
          if m.Some? && m.value != Named("") {
            currentMode := m.value;
          }
          var name := Trim(arg);
          steps := steps + [PublisherStep(currentMode, if name == "" then None else Some(name), hasEnv)];
        case RestartSection(attrs) =>
          steps := steps + [RestartStep(currentMode, "init" in attrs && attrs["init"] != Value(""))];
        case WorkSection(attrs) =>
          steps := steps + [WorkStep(currentMode, if "pub" in attrs then Some(attrs["pub"]) else None)];
        case AsideSection =>
          steps := steps + [AsideStep];
      }
      assert steps == before + [StepOf(mode, sec)] && currentMode == NextMode(mode, sec);
      ParsedMore(before, mode, sections[i..]);
    }
    assert sections[|sections|..] == [];
    ParsedRecords(StartMode(frontMatter), sections);
  }

  // ---------- The interpreter ----------

  /** A REST client is bound to a publisher's ports, which its name keeps: so, to the name. */
  datatype Session = Session(
    activeName: string, activeMode: Mode, activeRest: Option<string>, cluster: Publishers, machine: Machine)

  const OPENING := Session("default", Named("on"), None, EMPTY, Machine(map[], 0))

  /** A step that ran against the active publisher: the mode recorded for it, and the one running. */
  datatype Ran = Ran(recorded: Mode, running: Mode)

  function Used(plan: Plan, s: Session, name: string, mode: Mode, hasEnv: bool): Session {
    var c, m := s.cluster, s.machine;
    if Reusable(c, name, mode, None, hasEnv) then s.(activeRest := Some(name))
    else Rebooted(plan, s, name, mode, true)
  }

  function Rebooted(plan: Plan, s: Session, name: string, mode: Mode, init: bool): Session {
    s.(activeRest := Some(name),
       cluster := BootCluster(plan, s.cluster, s.machine, name, mode, Serving),
       machine := BootMachine(plan, s.cluster, s.machine, 0, name, mode, init, Serving))
  }

  /** `pub ? ctx.restOf(pub) : await active()`: an empty name is no name, a bare flag names nothing. */
  predicate TargetsActive(pub: Option<Attr>) {
    pub.None? || pub.value == Value("")
  }

  function RunningMode(s: Session): Option<Mode> {
    if s.activeRest.Some? && s.activeRest.value in s.cluster.pubs
    then Some(s.cluster.pubs[s.activeRest.value].mode) else None
  }

  /** The session after a step, if the step's own publisher work throws nothing. */
  function Exec(plan: Plan, s: Session, step: Step): Option<Session> {
    match step
    case PublisherStep(mode, name, hasEnv) =>
      var active := if name.Some? then name.value else "default";
      Some(Used(plan, s.(activeName := active, activeMode := mode), active, mode, hasEnv))
    case RestartStep(_, init) => Some(Rebooted(plan, s, s.activeName, s.activeMode, init))
    case WorkStep(_, pub) =>
      if TargetsActive(pub) then
        Some(if s.activeRest.Some? then s else Used(plan, s, s.activeName, s.activeMode, false))
      else if pub.value.Value? && pub.value.text in s.cluster.pubs then Some(s)
      else None
    case AsideStep => Some(s)
  }

  /** Whether a step runs against the active publisher under a recorded mode. */
  predicate OnActive(step: Step) {
    step.PublisherStep? || step.RestartStep? || (step.WorkStep? && TargetsActive(step.pub))
  }

  /**
   * What a run shows, step by step. `throws` is whatever makes a step fail; a step that fails
   * ends the run, and a failed boot shows nothing.
   */
  function Runs(plan: Plan, s: Session, steps: seq<Step>, throws: seq<bool>): seq<Ran>
    requires |throws| == |steps|
    decreases |steps|
  {
    if steps == [] || throws[0] then []
    else
      match Exec(plan, s, steps[0])
      case None => []
      case Some(s') =>
        (if OnActive(steps[0]) && RunningMode(s').Some? then [Ran(steps[0].mode, RunningMode(s').value)] else [])
        + Runs(plan, s', steps[1..], throws[1..])
  }

  predicate Agrees(ran: seq<Ran>) {
    forall r | r in ran :: r.recorded == r.running
  }

  /** A Publisher step makes its publisher the active one, running in its mode, and touches no other. */
  lemma PublisherStepRuns(plan: Plan, s: Session, mode: Mode, name: Option<string>, hasEnv: bool)
    ensures var active := if name.Some? then name.value else "default";
            var r := Exec(plan, s, PublisherStep(mode, name, hasEnv));
            && r.Some? && r.value.activeName == active && r.value.activeMode == mode && r.value.activeRest == Some(active)
            && active in r.value.cluster.pubs && r.value.cluster.pubs[active].mode == mode
            && r.value.cluster.pubs - {active} == s.cluster.pubs - {active}
            && (r.value.machine == s.machine <==> active in s.cluster.pubs && s.cluster.pubs[active].mode == mode && !hasEnv)
  {
    var active := if name.Some? then name.value else "default";
    BootServes(plan, s.cluster, s.machine, 0, active, mode, true);
    BootedState(plan, s.cluster, s.machine, active, mode, Serving);
  }

  /** A Restart step starts the active publisher anew in the session's mode, with --init only if it says so. */
  lemma RestartStepRuns(plan: Plan, s: Session, mode: Mode, init: bool)
    ensures var r := Exec(plan, s, RestartStep(mode, init));
            && r.Some? && r.value.activeName == s.activeName && r.value.activeMode == s.activeMode
            && r.value.activeRest == Some(s.activeName) && s.machine.nextPid in r.value.machine.live
            && r.value.machine.live[s.machine.nextPid].init == init
            && r.value.machine.live[s.machine.nextPid].mode == s.activeMode
            && r.value.machine.live[s.machine.nextPid].name == s.activeName
  {
    BootServes(plan, s.cluster, s.machine, 0, s.activeName, s.activeMode, init);
  }

  /** A work step aimed at a publisher by name needs it running; otherwise it is the active one's, booted at need. */
  lemma WorkStepRuns(plan: Plan, s: Session, mode: Mode, name: string)
    ensures name != "" ==> Exec(plan, s, WorkStep(mode, Some(Value(name)))) == if name in s.cluster.pubs then Some(s) else None
    ensures Exec(plan, s, WorkStep(mode, None)).Some?
    ensures Exec(plan, s, WorkStep(mode, Some(Value("")))) == Exec(plan, s, WorkStep(mode, None))
    ensures s.activeRest.Some? ==> Exec(plan, s, WorkStep(mode, None)) == Some(s)
    ensures s.activeRest.None? ==> Exec(plan, s, WorkStep(mode, None)).value.activeRest == Some(s.activeName)
    ensures Exec(plan, s, WorkStep(mode, Some(Flag))).None? && Exec(plan, s, AsideStep) == Some(s)
  {
  }

  // ---------- They agree ----------

  /** The active publisher, once there is one, runs in the session's mode. */
  predicate Settled(s: Session) {
    s.activeRest.Some? ==>
      s.activeRest.value == s.activeName && s.activeName in s.cluster.pubs
      && s.cluster.pubs[s.activeName].mode == s.activeMode
  }

  lemma UsedSettles(plan: Plan, s: Session, hasEnv: bool)
    ensures var s' := Used(plan, s, s.activeName, s.activeMode, hasEnv);
            Settled(s') && RunningMode(s') == Some(s.activeMode)
            && s'.activeName == s.activeName && s'.activeMode == s.activeMode
  {
  }

  lemma RebootedSettles(plan: Plan, s: Session, init: bool)
    ensures var s' := Rebooted(plan, s, s.activeName, s.activeMode, init);
            Settled(s') && RunningMode(s') == Some(s.activeMode)
            && s'.activeName == s.activeName && s'.activeMode == s.activeMode
  {
  }

  /** Parser and interpreter in step: one section keeps them so and shows only agreement. */
  lemma SectionKeepsStep(plan: Plan, current: Mode, s: Session, sec: Section)
    requires Settled(s)
    requires s.activeMode == current || sec.PublisherSection?
    ensures var step := StepOf(current, sec);
            var s' := Exec(plan, s, step);
            s'.Some? ==>
              && Settled(s'.value) && s'.value.activeMode == NextMode(current, sec)
              && (OnActive(step) ==> RunningMode(s'.value) == Some(step.mode))
  {
  }

  lemma {:induction false} InStepAgrees(plan: Plan, current: Mode, s: Session, sections: seq<Section>, throws: seq<bool>)
    requires Settled(s) && |throws| == |Parsed(current, sections)|
    requires s.activeMode == current || (sections != [] && sections[0].PublisherSection?)
    ensures Agrees(Runs(plan, s, Parsed(current, sections), throws))
    decreases |sections|
  {
    if sections != [] && !throws[0] {
      var steps := Parsed(current, sections);
      assert steps[1..] == Parsed(NextMode(current, sections[0]), sections[1..]);
      SectionKeepsStep(plan, current, s, sections[0]);
      match Exec(plan, s, steps[0]) {
        case None =>
        case Some(s') => InStepAgrees(plan, NextMode(current, sections[0]), s', sections[1..], throws[1..]);
      }
    }
  }

  /** The first section that has anything to do with a publisher, if any. */
  function FirstRelevant(sections: seq<Section>): Option<Section> {
    if sections == [] then None
    else if sections[0].AsideSection? then FirstRelevant(sections[1..])
    else Some(sections[0])
  }

  /** A scenario that reaches for the active publisher before any Publisher section names one. */
  predicate StartsUnannounced(sections: seq<Section>) {
    var first := FirstRelevant(sections);
    first.Some? && !first.value.PublisherSection? && OnActive(StepOf(Bare, first.value))
  }

  lemma {:induction false} UnannouncedDisagrees(plan: Plan, current: Mode, sections: seq<Section>, throws: seq<bool>)
    requires current != Named("on") && StartsUnannounced(sections)
    requires |throws| == |Parsed(current, sections)| && forall t | t in throws :: !t
    ensures !Agrees(Runs(plan, OPENING, Parsed(current, sections), throws))
    decreases |sections|
  {
    var steps := Parsed(current, sections);
    assert throws[0] in throws;
    assert steps[1..] == Parsed(NextMode(current, sections[0]), sections[1..]);
    if sections[0].AsideSection? {
      assert OnActive(steps[0]) == false && Exec(plan, OPENING, steps[0]) == Some(OPENING);
      forall t | t in throws[1..] ensures !t { assert t in throws; }
      UnannouncedDisagrees(plan, current, sections[1..], throws[1..]);
      assert Runs(plan, OPENING, steps, throws) == [] + Runs(plan, OPENING, steps[1..], throws[1..]);
    } else {
      UsedSettles(plan, OPENING, false);
      RebootedSettles(plan, OPENING, true);
      RebootedSettles(plan, OPENING, false);
      var shown := Ran(current, Named("on"));
      assert Runs(plan, OPENING, steps, throws)[0] == shown;
      assert shown in Runs(plan, OPENING, steps, throws);
    }
  }

  lemma {:induction false} AnnouncedAgrees(plan: Plan, current: Mode, sections: seq<Section>, throws: seq<bool>)
    requires !StartsUnannounced(sections) && |throws| == |Parsed(current, sections)|
    ensures Agrees(Runs(plan, OPENING, Parsed(current, sections), throws))
    decreases |sections|
  {
    if sections != [] && !throws[0] {
      var steps := Parsed(current, sections);
      assert steps[1..] == Parsed(NextMode(current, sections[0]), sections[1..]);
      if sections[0].AsideSection? {
        AnnouncedAgrees(plan, current, sections[1..], throws[1..]);
        assert Runs(plan, OPENING, steps, throws) == [] + Runs(plan, OPENING, steps[1..], throws[1..]);
      } else if sections[0].PublisherSection? {
        InStepAgrees(plan, current, OPENING, sections, throws);
      } else {
        assert Exec(plan, OPENING, steps[0]).None?;
      }
    }
  }

  /**
   * Whatever steps throw, every step that runs against the active publisher finds it in the
   * mode the parser recorded, exactly when the scenario starts in "on" or announces its
   * publisher before using it.
   */
  lemma ModesAgreeIff(plan: Plan, frontMatter: Option<string>, sections: seq<Section>)
    ensures (forall throws: seq<bool> | |throws| == |Parsed(StartMode(frontMatter), sections)| ::
               Agrees(Runs(plan, OPENING, Parsed(StartMode(frontMatter), sections), throws)))
       <==> StartMode(frontMatter) == Named("on") || !StartsUnannounced(sections)
  {
    var start := StartMode(frontMatter);
    var steps := Parsed(start, sections);
    if start == Named("on") || !StartsUnannounced(sections) {
      forall throws: seq<bool> | |throws| == |steps| ensures Agrees(Runs(plan, OPENING, steps, throws)) {
        if start == Named("on") {
          InStepAgrees(plan, start, OPENING, sections, throws);
        } else {
          AnnouncedAgrees(plan, start, sections, throws);
        }
      }
    } else {
      var none := seq(|steps|, _ => false);
      UnannouncedDisagrees(plan, start, sections, none);
      assert |none| == |steps| && !Agrees(Runs(plan, OPENING, steps, none));
    }
  }
}
