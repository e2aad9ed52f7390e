/**
 * The whole run: workers pull scenarios from the queue, and each boots, reboots and stops
 * publishers on its own block of ports. Every awaited point of `use`, `reboot`, `boot` and
 * `stop` is a step of its own, and the steps of different workers interleave freely.
 */
module HammerRun {
  import opened Text
  import opened Paths
  import opened Cluster
  import Queue = WorkQueue

  datatype Config = Config(scenarios: nat, workers: nat, basePort: int, baseMcp: int, workdir: Path, tagOf: nat -> string)

  /** Where a worker is inside `boot`: the old server stopped, or the new one started and awaited. */
  datatype Booting = Ready | Stopped(name: string, mode: Mode, init: bool) | Started(name: string, mode: Mode, pid: nat)

  /** One worker's cluster; `toStop` holds the servers its final `stop` has still to stop. */
  datatype Site = Site(cluster: Publishers, boot: Booting, closing: bool, toStop: set<string>)

  const FRESH := Site(EMPTY, Ready, false, {})

  /** `orphans` are the servers whose first probe failed after they had started. */
  datatype State = State(queue: Queue.Queue, sites: seq<Site>, machine: Machine, orphans: set<nat>)

  datatype Action =
    | Take(w: nat)
    | Use(w: nat, name: string, mode: Mode, init: Option<bool>, hasEnv: bool)
    | Reboot(w: nat, name: string, mode: Mode, init: Option<bool>)
    | Spawn(w: nat)
    | BecomesReady(w: nat)
    | NeverReady(w: nat)
    | ProbeFails(w: nat)
    | Close(w: nat)
    | StopOne(w: nat, name: string)
    | Finish(w: nat)

  function PlanOf(cfg: Config, w: nat, scenario: nat): Plan {
    Plan(cfg.basePort + w * 1000, cfg.baseMcp + w * 1000, cfg.workdir, cfg.tagOf(scenario))
  }

  function Start(cfg: Config): State {
    State(Queue.Start(cfg.workers), seq(cfg.workers, _ => FRESH), Machine(map[], 0), {})
  }

  /** The worker is running a scenario and is not inside a boot. */
  predicate Running(st: State, w: nat) {
    w < |st.sites| == |st.queue.slots| && st.queue.slots[w].Busy? && st.sites[w].boot.Ready? && !st.sites[w].closing
  }

  function Begin(st: State, w: nat, name: string, mode: Mode, init: bool): State
    requires w < |st.sites|
  {
    var s := st.sites[w];
    st.(sites := st.sites[w := s.(cluster := Release(s.cluster, name), boot := Stopped(name, mode, init))],
        machine := Released(s.cluster, st.machine, name))
  }

  function QueueStep(cfg: Config, st: State, a: Queue.Action): Option<State> {
    match Queue.Apply(cfg.scenarios, Queue.TakeThenCheck, st.queue, a)
    case None => None
    case Some(q) => Some(st.(queue := q))
  }

  function Apply(cfg: Config, st: State, a: Action): Option<State> {
    if a.w >= |st.sites| || |st.sites| != |st.queue.slots| then None
    else
      var s := st.sites[a.w];
      match a
      case Take(w) => QueueStep(cfg, st, Queue.Take(w))
      case Use(w, name, mode, init, hasEnv) =>
        if !Running(st, w) then None
        else if Reusable(s.cluster, name, mode, init, hasEnv) then Some(st)
        else Some(Begin(st, w, name, mode, if init.Some? then init.value else true))
      case Reboot(w, name, mode, init) =>
        if !Running(st, w) then None else Some(Begin(st, w, name, mode, init == Some(true)))
      case Spawn(w) =>
        if !s.boot.Stopped? || !st.queue.slots[w].Busy? then None
        else
          var c := Prepare(PlanOf(cfg, w, st.queue.slots[w].item), s.cluster, s.boot.name);
          Some(st.(sites := st.sites[w := s.(cluster := c, boot := Started(s.boot.name, s.boot.mode, st.machine.nextPid))],
                   machine := Spawned(c, st.machine, w, s.boot.name, s.boot.mode, s.boot.init)))
      case BecomesReady(w) =>
        if !s.boot.Started? then None
        else
          var c := Register(s.cluster, s.boot.name, s.boot.pid, s.boot.mode);
          Some(st.(sites := st.sites[w := s.(cluster := c, boot := Ready)]))
      case NeverReady(w) =>
        if !s.boot.Started? then None
        else Some(st.(sites := st.sites[w := s.(boot := Ready)], machine := Kill(st.machine, s.boot.pid)))
      case ProbeFails(w) =>
        if !s.boot.Started? then None
        else Some(st.(sites := st.sites[w := s.(boot := Ready)], orphans := st.orphans + {s.boot.pid}))
      case Close(w) =>
        if !Running(st, w) then None
        else Some(st.(sites := st.sites[w := s.(closing := true, toStop := s.cluster.pubs.Keys)]))
      case StopOne(w, name) =>
        if !s.closing || name !in s.toStop || name !in s.cluster.pubs then None
        else Some(st.(sites := st.sites[w := s.(toStop := s.toStop - {name})],
                      machine := Kill(st.machine, s.cluster.pubs[name].pid)))
      case Finish(w) =>
        if !s.closing || s.toStop != {} then None
        else QueueStep(cfg, st.(sites := st.sites[w := FRESH]), Queue.Finish(w))
  }

  function Run(cfg: Config, st: State, acts: seq<Action>): Option<State>
    decreases |acts|
  {
    if acts == [] then Some(st)
    else
      match Apply(cfg, st, acts[0])
      case None => None
      case Some(st') => Run(cfg, st', acts[1..])
  }

  predicate Reachable(cfg: Config, st: State, acts: seq<Action>) {
    Run(cfg, Start(cfg), acts) == Some(st)
  }

  // ---------- The invariant ----------

  /** The worker knows the process as the named publisher's server. */
  predicate Tracks(s: Site, name: string, pid: nat) {
    if s.boot.Started? && s.boot.name == name then s.boot.pid == pid
    else name in s.cluster.pubs && s.cluster.pubs[name].pid == pid && (s.closing ==> name in s.toStop)
  }

  ghost predicate SiteOk(cfg: Config, w: nat, slot: Queue.Slot, s: Site) {
    && (slot.Busy? ==> PortsAssigned(PlanOf(cfg, w, slot.item), s.cluster))
    && (!slot.Busy? ==> s == FRESH)
    && (!s.boot.Ready? ==> s.boot.name !in s.cluster.pubs && !s.closing)
    && (s.boot.Started? ==> s.boot.name in s.cluster.ports)
    && s.toStop <= s.cluster.pubs.Keys && (!s.closing ==> s.toStop == {})
  }

  predicate ProcessOk(st: State, pid: nat)
    requires pid in st.machine.live
  {
    var p := st.machine.live[pid];
    && pid < st.machine.nextPid && p.owner < |st.sites|
    && (pid !in st.orphans ==>
          var s := st.sites[p.owner];
          Tracks(s, p.name, pid) && p.name in s.cluster.ports && p.ports == s.cluster.ports[p.name])
  }

  ghost predicate Inv(cfg: Config, st: State) {
    && |st.sites| == |st.queue.slots| == cfg.workers
    && (forall w | 0 <= w < |st.sites| :: SiteOk(cfg, w, st.queue.slots[w], st.sites[w]))
    && (forall pid | pid in st.machine.live :: ProcessOk(st, pid))
  }

  lemma StartInv(cfg: Config)
    ensures Inv(cfg, Start(cfg))
  {
  }

  lemma TakeInv(cfg: Config, st: State, w: nat)
    requires Inv(cfg, st) && Apply(cfg, st, Take(w)).Some?
    ensures Inv(cfg, Apply(cfg, st, Take(w)).value)
  {
    var st' := Apply(cfg, st, Take(w)).value;
    assert SiteOk(cfg, w, st.queue.slots[w], st.sites[w]);
    forall pid | pid in st'.machine.live ensures ProcessOk(st', pid) {
      assert ProcessOk(st, pid);
    }
  }

  lemma BeginInv(cfg: Config, st: State, w: nat, name: string, mode: Mode, init: bool)
    requires Inv(cfg, st) && Running(st, w)
    ensures Inv(cfg, Begin(st, w, name, mode, init))
  {
    var st', s := Begin(st, w, name, mode, init), st.sites[w];
    assert SiteOk(cfg, w, st.queue.slots[w], s);
    forall pid | pid in st'.machine.live ensures ProcessOk(st', pid) {
      assert ProcessOk(st, pid);
    }
  }

  lemma SpawnInv(cfg: Config, st: State, w: nat)
    requires Inv(cfg, st) && Apply(cfg, st, Spawn(w)).Some?
    ensures Inv(cfg, Apply(cfg, st, Spawn(w)).value)
  {
    var st', s := Apply(cfg, st, Spawn(w)).value, st.sites[w];
    var plan := PlanOf(cfg, w, st.queue.slots[w].item);
    assert SiteOk(cfg, w, st.queue.slots[w], s);
    PrepareKeepsPorts(plan, s.cluster, s.boot.name);
    PreparedPorts(plan, s.cluster, s.boot.name);
    forall pid | pid in st'.machine.live ensures ProcessOk(st', pid) {
      if pid != st.machine.nextPid {
        assert ProcessOk(st, pid);
      }
    }
  }

  lemma StartedInv(cfg: Config, st: State, a: Action)
    requires Inv(cfg, st) && (a.BecomesReady? || a.NeverReady? || a.ProbeFails?) && Apply(cfg, st, a).Some?
    ensures Inv(cfg, Apply(cfg, st, a).value)
  {
    var st', s := Apply(cfg, st, a).value, st.sites[a.w];
    assert SiteOk(cfg, a.w, st.queue.slots[a.w], s);
    forall pid | pid in st'.machine.live ensures ProcessOk(st', pid) {
      assert ProcessOk(st, pid);
    }
  }

  lemma ClosingInv(cfg: Config, st: State, a: Action)
    requires Inv(cfg, st) && (a.Close? || a.StopOne?) && Apply(cfg, st, a).Some?
    ensures Inv(cfg, Apply(cfg, st, a).value)
  {
    var st', s := Apply(cfg, st, a).value, st.sites[a.w];
    assert SiteOk(cfg, a.w, st.queue.slots[a.w], s);
    forall pid | pid in st'.machine.live ensures ProcessOk(st', pid) {
      assert ProcessOk(st, pid);
    }
  }

  lemma FinishInv(cfg: Config, st: State, w: nat)
    requires Inv(cfg, st) && Apply(cfg, st, Finish(w)).Some?
    ensures Inv(cfg, Apply(cfg, st, Finish(w)).value)
  {
    var st', s := Apply(cfg, st, Finish(w)).value, st.sites[w];
    assert SiteOk(cfg, w, st.queue.slots[w], s);
    forall pid | pid in st'.machine.live ensures ProcessOk(st', pid) {
      assert ProcessOk(st, pid);
    }
  }

  lemma StepInv(cfg: Config, st: State, a: Action)
    requires Inv(cfg, st) && Apply(cfg, st, a).Some?
    ensures Inv(cfg, Apply(cfg, st, a).value)
  {
    match a
    case Take(w) => TakeInv(cfg, st, w);
    case Use(w, name, mode, init, hasEnv) =>
      if !Reusable(st.sites[w].cluster, name, mode, init, hasEnv) {
        BeginInv(cfg, st, w, name, mode, if init.Some? then init.value else true);
      }
    case Reboot(w, name, mode, init) => BeginInv(cfg, st, w, name, mode, init == Some(true));
    case Spawn(w) => SpawnInv(cfg, st, w);
    case BecomesReady(_) => StartedInv(cfg, st, a);
    case NeverReady(_) => StartedInv(cfg, st, a);
    case ProbeFails(_) => StartedInv(cfg, st, a);
    case Close(_) => ClosingInv(cfg, st, a);
    case StopOne(_, _) => ClosingInv(cfg, st, a);
    case Finish(w) => FinishInv(cfg, st, w);
  }

  lemma {:induction false} RunInv(cfg: Config, st: State, acts: seq<Action>)
    requires Inv(cfg, st) && Run(cfg, st, acts).Some?
    ensures Inv(cfg, Run(cfg, st, acts).value)
    decreases |acts|
  {
    if acts != [] {
      StepInv(cfg, st, acts[0]);
      RunInv(cfg, Apply(cfg, st, acts[0]).value, acts[1..]);
    }
  }

  // ---------- Ports ----------

  /** A port pair that a worker's cluster has handed out: the worker, and the index it was for. */
  predicate HandedOut(st: State, w: nat, i: nat) {
    w < |st.sites| && i < st.sites[w].cluster.nextIdx
  }

  function PortsOf(cfg: Config, w: nat, i: nat): Ports {
    Ports(cfg.basePort + 100 * (10 * w + i), cfg.baseMcp + 100 * (10 * w + i))
  }

  /** Each worker's block ends before the next one in use begins. */
  predicate BlocksApart(st: State) {
    forall v, w | 0 <= v < w < |st.sites| && st.sites[w].cluster.nextIdx > 0 ::
      st.sites[v].cluster.nextIdx <= 10 * (w - v)
  }

  /** No REST port handed out is also an MCP port handed out. */
  ghost predicate KindsApart(cfg: Config, st: State) {
    forall w: nat, i: nat, v: nat, j: nat | HandedOut(st, w, i) && HandedOut(st, v, j) ::
      PortsOf(cfg, w, i).rest != PortsOf(cfg, v, j).mcp
  }

  /** However many names there are, kinds cannot meet when the gap between the bases is no multiple of 100. */
  lemma OffGridGapKeepsKindsApart(cfg: Config, st: State)
    requires (cfg.baseMcp - cfg.basePort) % 100 != 0
    ensures KindsApart(cfg, st)
  {
    forall w: nat, i: nat, v: nat, j: nat | HandedOut(st, w, i) && HandedOut(st, v, j)
      ensures PortsOf(cfg, w, i).rest != PortsOf(cfg, v, j).mcp
    {
      var k, l := 10 * w + i, 10 * v + j;
      assert cfg.basePort + 100 * k == cfg.baseMcp + 100 * l ==> cfg.baseMcp - cfg.basePort == 100 * (k - l);
    }
  }

  /** Blocks cannot meet while each scenario names at most ten publishers, or where one worker runs alone. */
  lemma SmallOrAloneKeepsBlocksApart(st: State)
    requires AtMostTen(st) || |st.sites| <= 1
    ensures BlocksApart(st)
  {
    forall v, w | 0 <= v < w < |st.sites| && st.sites[w].cluster.nextIdx > 0
      ensures st.sites[v].cluster.nextIdx <= 10 * (w - v)
    {
      assert st.sites[v] in st.sites;
    }
  }

  /** No publisher index of any worker puts a REST port on an MCP port. */
  predicate PlanClear(cfg: Config) {
    forall k: nat, l: nat | k < 10 * cfg.workers && l < 10 * cfg.workers ::
      cfg.basePort + 100 * k != cfg.baseMcp + 100 * l
  }

  /** Exactly: the gap between the bases is no multiple of 100 within reach of the workers. */
  lemma PlanClearIff(cfg: Config)
    ensures PlanClear(cfg) <==>
              !((cfg.baseMcp - cfg.basePort) % 100 == 0
                && -10 * cfg.workers < (cfg.baseMcp - cfg.basePort) / 100 < 10 * cfg.workers)
  {
    var gap := cfg.baseMcp - cfg.basePort;
    if gap % 100 == 0 && -10 * cfg.workers < gap / 100 < 10 * cfg.workers {
      var d := gap / 100;
      var k: nat, l: nat := if d >= 0 then d else 0, if d >= 0 then 0 else -d;
      assert cfg.basePort + 100 * k == cfg.baseMcp + 100 * l;
    }
  }

  /** Each scenario under way has named at most ten publishers so far. */
  predicate AtMostTen(st: State) {
    forall s | s in st.sites :: s.cluster.nextIdx <= 10
  }

  /** With at most ten names a scenario, such a plan keeps blocks and kinds apart. */
  lemma SmallPlanApart(cfg: Config, st: State)
    requires PlanClear(cfg) && AtMostTen(st) && |st.sites| == cfg.workers
    ensures BlocksApart(st) && KindsApart(cfg, st)
  {
    SmallOrAloneKeepsBlocksApart(st);
    forall w: nat, i: nat, v: nat, j: nat | HandedOut(st, w, i) && HandedOut(st, v, j)
      ensures PortsOf(cfg, w, i).rest != PortsOf(cfg, v, j).mcp
    {
      assert st.sites[w] in st.sites && st.sites[v] in st.sites;
      var k, l := 10 * w + i, 10 * v + j;
      assert cfg.basePort + 100 * k != cfg.baseMcp + 100 * l;
    }
  }

  /** Two indices of two workers stand for different ports. */
  ghost predicate PairsApart(cfg: Config, st: State) {
    forall w: nat, i: nat, v: nat, j: nat | HandedOut(st, w, i) && HandedOut(st, v, j) && (w, i) != (v, j) ::
      PortsOf(cfg, w, i).rest != PortsOf(cfg, v, j).rest && PortsOf(cfg, w, i).mcp != PortsOf(cfg, v, j).mcp
  }

  lemma PairsApartIff(cfg: Config, st: State)
    ensures PairsApart(cfg, st) <==> BlocksApart(st)
  {
    if BlocksApart(st) {
      forall w: nat, i: nat, v: nat, j: nat | HandedOut(st, w, i) && HandedOut(st, v, j) && (w, i) != (v, j)
        ensures 10 * w + i != 10 * v + j
      {
        if w != v {
          var lo, hi := if w < v then w else v, if w < v then v else w;
          assert st.sites[lo].cluster.nextIdx <= 10 * (hi - lo);
        }
      }
    } else {
      var v, w :| 0 <= v < w < |st.sites| && st.sites[w].cluster.nextIdx > 0
               && st.sites[v].cluster.nextIdx > 10 * (w - v);
      var i: nat := 10 * (w - v);
      assert HandedOut(st, v, i) && HandedOut(st, w, 0) && PortsOf(cfg, v, i).rest == PortsOf(cfg, w, 0).rest;
    }
  }

  /** No two names, of one worker or of two, have a port in common, REST or MCP. */
  predicate NamesApart(st: State) {
    forall w, v | 0 <= w < |st.sites| && 0 <= v < |st.sites| ::
      forall a, b | a in st.sites[w].cluster.ports && b in st.sites[v].cluster.ports ::
        Apart(st.sites[w].cluster.ports[a], st.sites[v].cluster.ports[b], (w, a) == (v, b))
  }

  predicate Apart(p: Ports, q: Ports, same: bool) {
    p.rest != q.mcp && (!same ==> p.rest != q.rest && p.mcp != q.mcp)
  }

  /** The index a name's ports were handed out for. */
  lemma IndexOf(cfg: Config, st: State, w: nat, a: string) returns (i: nat)
    requires Inv(cfg, st) && w < |st.sites| && a in st.sites[w].cluster.ports
    ensures HandedOut(st, w, i) && st.sites[w].cluster.ports[a] == PortsOf(cfg, w, i)
  {
    var s := st.sites[w];
    assert SiteOk(cfg, w, st.queue.slots[w], s);
    var plan := PlanOf(cfg, w, st.queue.slots[w].item);
    i :| 0 <= i < s.cluster.nextIdx && s.cluster.ports[a] == PortsAt(plan, i);
  }

  /** The name an index was handed out for. */
  lemma NameOf(cfg: Config, st: State, w: nat, i: nat) returns (a: string)
    requires Inv(cfg, st) && HandedOut(st, w, i)
    ensures a in st.sites[w].cluster.ports && st.sites[w].cluster.ports[a] == PortsOf(cfg, w, i)
  {
    var s := st.sites[w];
    assert SiteOk(cfg, w, st.queue.slots[w], s);
    var plan := PlanOf(cfg, w, st.queue.slots[w].item);
    assert PortsAt(plan, i) in s.cluster.ports.Values;
    a :| a in s.cluster.ports && s.cluster.ports[a] == PortsAt(plan, i);
  }

  lemma NamesApartIf(cfg: Config, st: State, w: nat, a: string, v: nat, b: string)
    requires Inv(cfg, st) && BlocksApart(st) && KindsApart(cfg, st)
    requires w < |st.sites| && v < |st.sites| && a in st.sites[w].cluster.ports && b in st.sites[v].cluster.ports
    ensures Apart(st.sites[w].cluster.ports[a], st.sites[v].cluster.ports[b], (w, a) == (v, b))
  {
    var i := IndexOf(cfg, st, w, a);
    var j := IndexOf(cfg, st, v, b);
    PairsApartIff(cfg, st);
    assert SiteOk(cfg, w, st.queue.slots[w], st.sites[w]);
    assert PortsOf(cfg, w, i).rest != PortsOf(cfg, v, j).mcp;
  }

  lemma NamesApartOnlyIf(cfg: Config, st: State)
    requires Inv(cfg, st) && NamesApart(st)
    ensures BlocksApart(st) && KindsApart(cfg, st)
  {
    forall w: nat, i: nat, v: nat, j: nat | HandedOut(st, w, i) && HandedOut(st, v, j)
      ensures Apart(PortsOf(cfg, w, i), PortsOf(cfg, v, j), (w, i) == (v, j))
    {
      IndicesApart(cfg, st, w, i, v, j);
    }
    PairsApartIff(cfg, st);
  }

  lemma IndicesApart(cfg: Config, st: State, w: nat, i: nat, v: nat, j: nat)
    requires Inv(cfg, st) && NamesApart(st) && HandedOut(st, w, i) && HandedOut(st, v, j)
    ensures Apart(PortsOf(cfg, w, i), PortsOf(cfg, v, j), (w, i) == (v, j))
  {
    var a := NameOf(cfg, st, w, i);
    var b := NameOf(cfg, st, v, j);
    assert (w, i) != (v, j) && w == v ==> PortsOf(cfg, w, i) != PortsOf(cfg, v, j);
  }

  /** In every reachable state: the names' ports are all distinct exactly when blocks and kinds stay apart. */
  lemma NamesApartIff(cfg: Config, st: State, acts: seq<Action>)
    requires Reachable(cfg, st, acts)
    ensures NamesApart(st) <==> BlocksApart(st) && KindsApart(cfg, st)
  {
    StartInv(cfg);
    RunInv(cfg, Start(cfg), acts);
    if NamesApart(st) {
      NamesApartOnlyIf(cfg, st);
    } else if BlocksApart(st) && KindsApart(cfg, st) {
      forall w, v | 0 <= w < |st.sites| && 0 <= v < |st.sites|
        ensures forall a, b | a in st.sites[w].cluster.ports && b in st.sites[v].cluster.ports ::
                  Apart(st.sites[w].cluster.ports[a], st.sites[v].cluster.ports[b], (w, a) == (v, b))
      {
        forall a, b | a in st.sites[w].cluster.ports && b in st.sites[v].cluster.ports
          ensures Apart(st.sites[w].cluster.ports[a], st.sites[v].cluster.ports[b], (w, a) == (v, b))
        {
          NamesApartIf(cfg, st, w, a, v, b);
        }
      }
    }
  }

  /** Then no two live servers a worker knows share a port, REST or MCP. */
  lemma LivePortsDistinct(cfg: Config, st: State, acts: seq<Action>, p: nat, q: nat)
    requires Reachable(cfg, st, acts) && BlocksApart(st) && KindsApart(cfg, st)
    requires p in st.machine.live && q in st.machine.live && p !in st.orphans && q !in st.orphans
    ensures st.machine.live[p].ports.rest != st.machine.live[q].ports.mcp
    ensures p != q ==> st.machine.live[p].ports.rest != st.machine.live[q].ports.rest
    ensures p != q ==> st.machine.live[p].ports.mcp != st.machine.live[q].ports.mcp
  {
    StartInv(cfg);
    RunInv(cfg, Start(cfg), acts);
    assert ProcessOk(st, p) && ProcessOk(st, q);
    var x, y := st.machine.live[p], st.machine.live[q];
    NamesApartIf(cfg, st, x.owner, x.name, y.owner, y.name);
    if p != q {
      OneServerAName(cfg, st, acts, p, q);
    }
  }

  /** A name within a cluster never has two live servers. */
  lemma OneServerAName(cfg: Config, st: State, acts: seq<Action>, p: nat, q: nat)
    requires Reachable(cfg, st, acts) && p in st.machine.live && q in st.machine.live && p != q
    requires p !in st.orphans && q !in st.orphans
    ensures (st.machine.live[p].owner, st.machine.live[p].name) != (st.machine.live[q].owner, st.machine.live[q].name)
  {
    StartInv(cfg);
    RunInv(cfg, Start(cfg), acts);
    assert ProcessOk(st, p) && ProcessOk(st, q);
  }

  /** While a scenario runs, whatever any worker does, its names keep the ports they have. */
  lemma NamesKeepPorts(cfg: Config, st: State, a: Action, w: nat, name: string)
    requires Inv(cfg, st) && Apply(cfg, st, a).Some? && w < |st.sites| && name in st.sites[w].cluster.ports
    requires a != Finish(w)
    ensures var s' := Apply(cfg, st, a).value.sites[w];
            name in s'.cluster.ports && s'.cluster.ports[name] == st.sites[w].cluster.ports[name]
  {
    if a.Spawn? {
      var s := st.sites[a.w];
      assert SiteOk(cfg, a.w, st.queue.slots[a.w], s);
      PrepareKeepsPorts(PlanOf(cfg, a.w, st.queue.slots[a.w].item), s.cluster, s.boot.name);
    }
  }

  /** Over any run that does not finish its scenario, a name keeps the ports it has. */
  lemma {:induction false} NamesKeepPortsThroughout(cfg: Config, st: State, acts: seq<Action>, w: nat, name: string)
    requires Inv(cfg, st) && Run(cfg, st, acts).Some? && Finish(w) !in acts
    requires w < |st.sites| && name in st.sites[w].cluster.ports
    ensures var end := Run(cfg, st, acts).value;
            && w < |end.sites| && name in end.sites[w].cluster.ports
            && end.sites[w].cluster.ports[name] == st.sites[w].cluster.ports[name]
    decreases |acts|
  {
    if acts != [] {
      assert acts[0] in acts;
      NamesKeepPorts(cfg, st, acts[0], w, name);
      StepInv(cfg, st, acts[0]);
      NamesKeepPortsThroughout(cfg, Apply(cfg, st, acts[0]).value, acts[1..], w, name);
    }
  }

  // ---------- The queue underneath ----------

  function QueueActs(acts: seq<Action>): seq<Queue.Action> {
    if acts == [] then []
    else
      match acts[0]
      case Take(w) => [Queue.Take(w)] + QueueActs(acts[1..])
      case Finish(w) => [Queue.Finish(w)] + QueueActs(acts[1..])
      case _ => QueueActs(acts[1..])
  }

  /** Forgetting the servers turns a run into a run of the work queue. */
  lemma {:induction false} RunRefinesQueue(cfg: Config, st: State, acts: seq<Action>)
    requires Run(cfg, st, acts).Some?
    ensures Queue.Run(cfg.scenarios, Queue.TakeThenCheck, st.queue, QueueActs(acts))
         == Some(Run(cfg, st, acts).value.queue)
    decreases |acts|
  {
    if acts != [] {
      var st' := Apply(cfg, st, acts[0]).value;
      RunRefinesQueue(cfg, st', acts[1..]);
      var rest := QueueActs(acts[1..]);
      match acts[0] {
        case Take(w) => assert ([Queue.Take(w)] + rest)[1..] == rest;
        case Finish(w) => assert ([Queue.Finish(w)] + rest)[1..] == rest;
        case _ => assert st'.queue == st.queue;
      }
    }
  }

  /** When every worker has stopped, each scenario ran exactly once and no tracked server is left. */
  lemma RunsEachScenarioOnce(cfg: Config, st: State, acts: seq<Action>)
    requires cfg.workers > 0 && Reachable(cfg, st, acts) && Queue.AllDone(st.queue)
    ensures forall i: nat :: multiset(st.queue.finished)[i] == if i < cfg.scenarios then 1 else 0
    ensures st.machine.live.Keys <= st.orphans
  {
    RunRefinesQueue(cfg, Start(cfg), acts);
    Queue.ExactlyOnce(cfg.scenarios, Queue.TakeThenCheck, cfg.workers, QueueActs(acts));
    StartInv(cfg);
    RunInv(cfg, Start(cfg), acts);
    forall pid | pid in st.machine.live ensures pid in st.orphans {
      assert ProcessOk(st, pid);
      var w := st.machine.live[pid].owner;
      assert SiteOk(cfg, w, st.queue.slots[w], st.sites[w]);
    }
  }

  /** A worker that has not stopped has a step to take. */
  lemma NextStep(cfg: Config, st: State, w: nat) returns (a: Action)
    requires w < |st.sites| == |st.queue.slots| && !st.queue.slots[w].Done?
    requires SiteOk(cfg, w, st.queue.slots[w], st.sites[w])
    ensures Apply(cfg, st, a).Some?
  {
    var s := st.sites[w];
    if st.queue.slots[w].Idle? {
      a := Take(w);
    } else if s.boot.Stopped? {
      a := Spawn(w);
    } else if s.boot.Started? {
      a := BecomesReady(w);
    } else if !s.closing {
      a := Close(w);
    } else if name :| name in s.toStop {
      a := StopOne(w, name);
    } else {
      a := Finish(w);
    }
  }

  /** A run stops only when every worker has. */
  lemma StuckMeansDone(cfg: Config, st: State, acts: seq<Action>)
    requires Reachable(cfg, st, acts) && forall a :: Apply(cfg, st, a).None?
    ensures Queue.AllDone(st.queue)
  {
    StartInv(cfg);
    RunInv(cfg, Start(cfg), acts);
    forall w | 0 <= w < |st.queue.slots| ensures st.queue.slots[w].Done? {
      assert SiteOk(cfg, w, st.queue.slots[w], st.sites[w]);
      if !st.queue.slots[w].Done? {
        var a := NextStep(cfg, st, w);
      }
    }
  }

  // ---------- Runs put together ----------

  lemma RunStep(cfg: Config, st: State, a: Action, rest: seq<Action>)
    requires Apply(cfg, st, a).Some?
    ensures Run(cfg, st, [a] + rest) == Run(cfg, Apply(cfg, st, a).value, rest)
  {
  }

  lemma {:induction false} RunAppend(cfg: Config, st: State, a: seq<Action>, b: seq<Action>)
    requires Run(cfg, st, a).Some?
    ensures Run(cfg, st, a + b) == Run(cfg, Run(cfg, st, a).value, b)
    decreases |a|
  {
    if a == [] {
      assert a + b == b;
    } else {
      assert (a + b)[1..] == a[1..] + b;
      RunAppend(cfg, Apply(cfg, st, a[0]).value, a[1..], b);
    }
  }

  /** Only worker w's cluster differs between the two states, and no server has been lost sight of. */
  predicate OthersKept(st: State, st': State, w: nat) {
    && st'.queue == st.queue && st'.orphans == st.orphans && |st'.sites| == |st.sites|
    && forall v | 0 <= v < |st.sites| && v != w :: st'.sites[v] == st.sites[v]
  }

  /** One process more. */
  function Grown(m: Machine, p: Process): Machine {
    Machine(m.live[m.nextPid := p], m.nextPid + 1)
  }

  /** Worker w asks for a publisher it has not named yet, and the server comes up. */
  lemma BootNext(cfg: Config, st: State, w: nat, name: string, mode: Mode) returns (st': State)
    requires Running(st, w) && name !in st.sites[w].cluster.pubs && name !in st.sites[w].cluster.ports
    ensures Run(cfg, st, BootActs(w, name, mode)) == Some(st')
    ensures OthersKept(st, st', w) && Running(st', w)
    ensures var c, c' := st.sites[w].cluster, st'.sites[w].cluster;
            && c'.ports == c.ports[name := PortsOf(cfg, w, c.nextIdx)] && c'.nextIdx == c.nextIdx + 1
            && c'.pubs.Keys == c.pubs.Keys + {name}
    ensures st'.machine == Grown(st.machine, Process(w, name, PortsOf(cfg, w, st.sites[w].cluster.nextIdx), mode, true))
  {
    var s2 := SpawnNext(cfg, st, w, name, mode);
    st' := Apply(cfg, s2, BecomesReady(w)).value;
    RunAppend(cfg, st, SpawnActs(w, name, mode), [BecomesReady(w)]);
    assert SpawnActs(w, name, mode) + [BecomesReady(w)] == BootActs(w, name, mode);
    RunStep(cfg, s2, BecomesReady(w), []);
    assert [BecomesReady(w)] + [] == [BecomesReady(w)];
  }

  lemma Asked(cfg: Config, st: State, w: nat, name: string, mode: Mode) returns (st': State)
    requires Running(st, w) && name !in st.sites[w].cluster.pubs
    ensures Apply(cfg, st, Use(w, name, mode, None, false)) == Some(st')
    ensures st' == st.(sites := st.sites[w := st.sites[w].(boot := Stopped(name, mode, true))])
  {
    st' := Apply(cfg, st, Use(w, name, mode, None, false)).value;
    assert st.sites[w].cluster.pubs - {name} == st.sites[w].cluster.pubs;
  }

  function SpawnActs(w: nat, name: string, mode: Mode): seq<Action> {
    [Use(w, name, mode, None, false), Spawn(w)]
  }

  /** Worker w asks for a publisher it has not named yet, and its server is spawned. */
  lemma SpawnNext(cfg: Config, st: State, w: nat, name: string, mode: Mode) returns (st': State)
    requires Running(st, w) && name !in st.sites[w].cluster.pubs && name !in st.sites[w].cluster.ports
    ensures Run(cfg, st, SpawnActs(w, name, mode)) == Some(st') && OthersKept(st, st', w)
    ensures var s, s' := st.sites[w], st'.sites[w];
            && s'.boot == Started(name, mode, st.machine.nextPid) && !s'.closing
            && s'.cluster.ports == s.cluster.ports[name := PortsOf(cfg, w, s.cluster.nextIdx)]
            && s'.cluster.nextIdx == s.cluster.nextIdx + 1 && s'.cluster.pubs == s.cluster.pubs
    ensures st'.machine == Grown(st.machine, Process(w, name, PortsOf(cfg, w, st.sites[w].cluster.nextIdx), mode, true))
  {
    var use, spawn := Use(w, name, mode, None, false), Spawn(w);
    var s1 := Asked(cfg, st, w, name, mode);
    PreparedPorts(PlanOf(cfg, w, st.queue.slots[w].item), s1.sites[w].cluster, name);
    st' := Apply(cfg, s1, spawn).value;
    RunStep(cfg, s1, spawn, []);
    RunStep(cfg, st, use, [spawn]);
    assert [spawn] + [] == [spawn] && [use] + [spawn] == SpawnActs(w, name, mode);
  }

  lemma RunThree(cfg: Config, st: State, a: Action, b: Action, c: Action)
    requires Apply(cfg, st, a).Some? && Apply(cfg, Apply(cfg, st, a).value, b).Some?
    requires Apply(cfg, Apply(cfg, Apply(cfg, st, a).value, b).value, c).Some?
    ensures Run(cfg, st, [a, b, c]) == Apply(cfg, Apply(cfg, Apply(cfg, st, a).value, b).value, c)
  {
    var s1 := Apply(cfg, st, a).value;
    var s2 := Apply(cfg, s1, b).value;
    RunStep(cfg, s2, c, []);
    RunStep(cfg, s1, b, [c]);
    RunStep(cfg, st, a, [b, c]);
    assert [c] + [] == [c] && [b] + [c] == [b, c] && [a] + [b, c] == [a, b, c];
  }

  function Name(i: nat): (name: string)
    ensures |name| == i + 1
  {
    seq(i + 1, _ => 'p')
  }

  /** The i-th of worker w's publishers is served by the i-th process from first on. */
  predicate Serves(cfg: Config, m: Machine, w: nat, i: nat, first: nat, mode: Mode) {
    first + i in m.live && m.live[first + i] == Process(w, Name(i), PortsOf(cfg, w, i), mode, true)
  }

  /** Worker w has booted n publishers from scratch, one process after another from first. */
  predicate Booted(cfg: Config, st: State, w: nat, n: nat, first: nat, mode: Mode) {
    && Running(st, w) && st.sites[w].cluster.nextIdx == n && st.machine.nextPid == first + n
    && (forall a | a in st.sites[w].cluster.ports.Keys + st.sites[w].cluster.pubs.Keys :: |a| <= n)
    && forall i: nat | i < n :: Serves(cfg, st.machine, w, i, first, mode)
  }

  function BootActs(w: nat, name: string, mode: Mode): seq<Action> {
    [Use(w, name, mode, None, false), Spawn(w), BecomesReady(w)]
  }

  predicate LiveKept(m: Machine, m': Machine) {
    forall pid | pid in m.live && pid < m.nextPid :: pid in m'.live && m'.live[pid] == m.live[pid]
  }

  lemma NameUnused(cfg: Config, st: State, w: nat, n: nat, first: nat, mode: Mode)
    requires Booted(cfg, st, w, n, first, mode)
    ensures Name(n) !in st.sites[w].cluster.ports && Name(n) !in st.sites[w].cluster.pubs
  {
    var c := st.sites[w].cluster;
    assert Name(n) !in c.ports.Keys + c.pubs.Keys;
  }

  lemma KeptOnward(st: State, mid: State, st': State, w: nat)
    requires OthersKept(st, mid, w) && OthersKept(mid, st', w)
    requires LiveKept(st.machine, mid.machine) && LiveKept(mid.machine, st'.machine)
    requires st.machine.nextPid <= mid.machine.nextPid
    ensures OthersKept(st, st', w) && LiveKept(st.machine, st'.machine)
  {
  }

  lemma BootOneMore(cfg: Config, st: State, w: nat, n: nat, first: nat, mode: Mode) returns (st': State)
    requires Booted(cfg, st, w, n, first, mode)
    ensures Run(cfg, st, BootActs(w, Name(n), mode)) == Some(st') && OthersKept(st, st', w)
    ensures Booted(cfg, st', w, n + 1, first, mode) && LiveKept(st.machine, st'.machine)
  {
    NameUnused(cfg, st, w, n, first, mode);
    st' := BootNext(cfg, st, w, Name(n), mode);
    BootedOneMore(cfg, st, st', w, n, first, mode);
    ServesOneMore(cfg, st.machine, st'.machine, w, n, first, mode);
  }

  lemma {:induction false} BootMany(cfg: Config, st: State, w: nat, n: nat, mode: Mode) returns (acts: seq<Action>, st': State)
    requires Running(st, w) && st.sites[w].cluster == EMPTY
    ensures Run(cfg, st, acts) == Some(st') && OthersKept(st, st', w)
    ensures Booted(cfg, st', w, n, st.machine.nextPid, mode) && LiveKept(st.machine, st'.machine)
  {
    if n == 0 {
      acts, st' := [], st;
    } else {
      var front, mid := BootMany(cfg, st, w, n - 1, mode);
      st' := BootOneMore(cfg, mid, w, n - 1, st.machine.nextPid, mode);
      acts := front + BootActs(w, Name(n - 1), mode);
      RunAppend(cfg, st, front, BootActs(w, Name(n - 1), mode));
      KeptOnward(st, mid, st', w);
    }
  }

  lemma BootedOneMore(cfg: Config, st: State, st': State, w: nat, n: nat, first: nat, mode: Mode)
    requires Booted(cfg, st, w, n, first, mode) && Running(st', w)
    requires var c, c' := st.sites[w].cluster, st'.sites[w].cluster;
             && c'.ports == c.ports[Name(n) := PortsOf(cfg, w, n)] && c'.nextIdx == n + 1
             && c'.pubs.Keys == c.pubs.Keys + {Name(n)}
    requires st'.machine == Grown(st.machine, Process(w, Name(n), PortsOf(cfg, w, n), mode, true))
    ensures Booted(cfg, st', w, n + 1, first, mode)
  {
    ServesOneMore(cfg, st.machine, st'.machine, w, n, first, mode);
  }

  /** Two live servers that workers know were given a port in common. */
  predicate Collide(st: State, p: nat, q: nat) {
    && p in st.machine.live && q in st.machine.live && p !in st.orphans && q !in st.orphans
    && var a, b := st.machine.live[p].ports, st.machine.live[q].ports;
       a.rest == b.mcp || (p != q && (a.rest == b.rest || a.mcp == b.mcp))
  }

  /** One publisher more, spawned on the next ports. */
  lemma SpawnOneMore(cfg: Config, st: State, w: nat, n: nat, first: nat, mode: Mode) returns (st': State)
    requires Booted(cfg, st, w, n, first, mode)
    ensures Run(cfg, st, SpawnActs(w, Name(n), mode)) == Some(st') && OthersKept(st, st', w)
    ensures forall i: nat | i <= n :: Serves(cfg, st'.machine, w, i, first, mode)
    ensures LiveKept(st.machine, st'.machine)
  {
    NameUnused(cfg, st, w, n, first, mode);
    st' := SpawnNext(cfg, st, w, Name(n), mode);
    ServesOneMore(cfg, st.machine, st'.machine, w, n, first, mode);
  }

  lemma ServesOneMore(cfg: Config, m: Machine, m': Machine, w: nat, n: nat, first: nat, mode: Mode)
    requires forall i: nat | i < n :: Serves(cfg, m, w, i, first, mode)
    requires m.nextPid == first + n && m' == Grown(m, Process(w, Name(n), PortsOf(cfg, w, n), mode, true))
    ensures forall i: nat | i <= n :: Serves(cfg, m', w, i, first, mode)
    ensures LiveKept(m, m')
  {
    forall i: nat | i <= n ensures Serves(cfg, m', w, i, first, mode) {
      assert i < n ==> Serves(cfg, m, w, i, first, mode);
    }
  }

  /** With the eleventh publisher of worker 0 up, worker 1's first is spawned on its ports. */
  lemma EleventhNameCollides(cfg: Config, mode: Mode) returns (acts: seq<Action>, st: State)
    requires cfg.workers >= 2 && cfg.scenarios >= 2
    ensures Reachable(cfg, st, acts) && Collide(st, 10, 11)
    ensures st.machine.live[10] == Process(0, Name(10), st.machine.live[11].ports, mode, true)
    ensures st.machine.live[11] == Process(1, Name(0), PortsOf(cfg, 1, 0), mode, true)
  {
    var taken := Apply(cfg, Start(cfg), Take(0)).value;
    var a, full := BootMany(cfg, taken, 0, 11, mode);
    var both := Apply(cfg, full, Take(1)).value;
    assert Booted(cfg, both, 1, 0, 11, mode);
    var b := SpawnActs(1, Name(0), mode);
    st := SpawnOneMore(cfg, both, 1, 0, 11, mode);
    acts := [Take(0)] + (a + ([Take(1)] + b));
    RunStep(cfg, full, Take(1), b);
    RunAppend(cfg, taken, a, [Take(1)] + b);
    RunStep(cfg, Start(cfg), Take(0), a + ([Take(1)] + b));
    assert Serves(cfg, full.machine, 0, 10, 0, mode) && Serves(cfg, st.machine, 1, 0, 11, mode);
  }

  /** Worker 0 boots n publishers and has one more spawned. */
  lemma FirstWorkerSpawns(cfg: Config, n: nat, mode: Mode) returns (acts: seq<Action>, st: State)
    requires cfg.workers > 0 && cfg.scenarios > 0
    ensures Reachable(cfg, st, acts) && st.orphans == {}
    ensures forall i: nat | i <= n :: Serves(cfg, st.machine, 0, i, 0, mode)
  {
    var taken := Apply(cfg, Start(cfg), Take(0)).value;
    var a, mid := BootMany(cfg, taken, 0, n, mode);
    var b := SpawnActs(0, Name(n), mode);
    st := SpawnOneMore(cfg, mid, 0, n, 0, mode);
    acts := [Take(0)] + (a + b);
    RunAppend(cfg, taken, a, b);
    RunStep(cfg, Start(cfg), Take(0), a + b);
  }

  /** With a gap that is a multiple of 100, the last of enough publishers is spawned with a REST port on an MCP port. */
  lemma RoundGapCollides(cfg: Config, mode: Mode) returns (acts: seq<Action>, st: State, p: nat, q: nat)
    requires cfg.workers > 0 && cfg.scenarios > 0 && (cfg.baseMcp - cfg.basePort) % 100 == 0
    ensures Reachable(cfg, st, acts) && Collide(st, p, q)
  {
    var d := (cfg.baseMcp - cfg.basePort) / 100;
    p, q := if d >= 0 then d else 0, if d >= 0 then 0 else -d;
    acts, st := FirstWorkerSpawns(cfg, p + q, mode);
    assert Serves(cfg, st.machine, 0, p, 0, mode) && Serves(cfg, st.machine, 0, q, 0, mode);
  }

  /** One scenario, or one worker: at no time are two clusters in use. */
  lemma OneAtATime(cfg: Config, st: State, acts: seq<Action>)
    requires Reachable(cfg, st, acts) && cfg.workers > 0 && (cfg.workers == 1 || cfg.scenarios == 1)
    ensures BlocksApart(st)
  {
    StartInv(cfg);
    RunInv(cfg, Start(cfg), acts);
    RunRefinesQueue(cfg, Start(cfg), acts);
    Queue.StartAccounted(cfg.scenarios, cfg.workers);
    Queue.RunAccounted(cfg.scenarios, Queue.TakeThenCheck, Queue.Start(cfg.workers), QueueActs(acts));
    forall v, w | 0 <= v < w < |st.sites| && st.sites[w].cluster.nextIdx > 0
      ensures st.sites[v].cluster.nextIdx <= 10 * (w - v)
    {
      assert SiteOk(cfg, v, st.queue.slots[v], st.sites[v]) && SiteOk(cfg, w, st.queue.slots[w], st.sites[w]);
      if st.queue.slots[v].Busy? && st.queue.slots[w].Busy? {
        Queue.HeldApart(cfg.scenarios, st.queue, v, w);
      }
    }
  }

  /**
   * Whatever the scenarios name, in every state of every run no two live servers that workers
   * know share a port: exactly when the gap between the bases is no multiple of 100 and there
   * is one worker, or one scenario.
   */
  lemma AlwaysApartIff(cfg: Config)
    requires cfg.workers > 0 && cfg.scenarios > 0
    ensures (forall st, acts, p, q | Reachable(cfg, st, acts) :: !Collide(st, p, q))
       <==> (cfg.baseMcp - cfg.basePort) % 100 != 0 && (cfg.workers == 1 || cfg.scenarios == 1)
  {
    if (cfg.baseMcp - cfg.basePort) % 100 == 0 {
      var acts, st, p, q := RoundGapCollides(cfg, Bare);
    } else if cfg.workers >= 2 && cfg.scenarios >= 2 {
      var acts, st := EleventhNameCollides(cfg, Bare);
    } else {
      forall st, acts, p, q | Reachable(cfg, st, acts) ensures !Collide(st, p, q) {
        OneAtATime(cfg, st, acts);
        OffGridGapKeepsKindsApart(cfg, st);
        if Collide(st, p, q) {
          LivePortsDistinct(cfg, st, acts, p, q);
        }
      }
    }
  }

  // ---------- Asked for with --init, or without ----------

  /** A server boots with --init unless told not to where it is used, and only if told to where it is rebooted. */
  lemma InitAsked(cfg: Config, st: State, w: nat, name: string, mode: Mode, init: Option<bool>, hasEnv: bool)
    requires Running(st, w)
    ensures var used := Apply(cfg, st, Use(w, name, mode, init, hasEnv));
            used.Some? && (used.value != st && used.value.sites[w].boot.Stopped? ==>
              used.value.sites[w].boot.init == (init != Some(false)))
    ensures var again := Apply(cfg, st, Reboot(w, name, mode, init));
            again.Some? && again.value.sites[w].boot == Stopped(name, mode, init == Some(true))
  {
  }

  lemma InitPassedOn(cfg: Config, st: State, w: nat)
    requires Apply(cfg, st, Spawn(w)).Some?
    ensures st.machine.nextPid in Apply(cfg, st, Spawn(w)).value.machine.live
    ensures var p := Apply(cfg, st, Spawn(w)).value.machine.live[st.machine.nextPid];
            p.init == st.sites[w].boot.init && p.mode == st.sites[w].boot.mode && p.name == st.sites[w].boot.name && p.owner == w
  {
  }

  // ---------- A server nobody stops ----------

  /** A first probe fails, which ends the scenario; the worker closes its cluster and goes on. */
  lemma LoseOne(cfg: Config, st: State, mode: Mode) returns (st': State)
    requires Running(st, 0) && st.sites[0].cluster == EMPTY && |st.queue.slots| == |st.sites|
    ensures Run(cfg, st, SpawnActs(0, "default", mode) + [Action.ProbeFails(0), Close(0), Finish(0)]) == Some(st')
    ensures st'.machine == Grown(st.machine, Process(0, "default", PortsOf(cfg, 0, 0), mode, true))
    ensures |st'.sites| == |st'.queue.slots| == |st.sites| && st'.sites[0] == FRESH
    ensures st'.queue.slots[0].Idle? && st'.queue.next == st.queue.next
  {
    var s2 := SpawnNext(cfg, st, 0, "default", mode);
    var s3 := Apply(cfg, s2, Action.ProbeFails(0)).value;
    var s4 := Apply(cfg, s3, Close(0)).value;
    st' := Apply(cfg, s4, Finish(0)).value;
    RunThree(cfg, s2, Action.ProbeFails(0), Close(0), Finish(0));
    RunAppend(cfg, st, SpawnActs(0, "default", mode), [Action.ProbeFails(0), Close(0), Finish(0)]);
  }

  lemma SpawnAgain(cfg: Config, st: State, mode: Mode) returns (st': State)
    requires |st.sites| == |st.queue.slots| > 0 && st.sites[0] == FRESH && st.queue.slots[0].Idle?
    requires st.queue.next < cfg.scenarios
    ensures Run(cfg, st, [Take(0)] + SpawnActs(0, "default", mode)) == Some(st')
    ensures st'.machine == Grown(st.machine, Process(0, "default", PortsOf(cfg, 0, 0), mode, true))
  {
    var s1 := Apply(cfg, st, Take(0)).value;
    st' := SpawnNext(cfg, s1, 0, "default", mode);
    RunStep(cfg, st, Take(0), SpawnActs(0, "default", mode));
  }

  /**
   * Why the port theorems leave orphans out. A publisher whose first probe fails ends its
   * scenario and is left running, for the cluster never learnt of it; the worker's next
   * scenario spawns its own server for the same ports. (Spawned: it finds the ports taken.)
   */
  lemma FailedProbeSharesPorts(cfg: Config, mode: Mode) returns (acts: seq<Action>, st: State)
    requires cfg.workers > 0 && cfg.scenarios >= 2
    ensures Reachable(cfg, st, acts)
    ensures 0 in st.machine.live && 1 in st.machine.live
    ensures st.machine.live[0] == st.machine.live[1]
  {
    var first := SpawnActs(0, "default", mode) + [Action.ProbeFails(0), Close(0), Finish(0)];
    var second := [Take(0)] + SpawnActs(0, "default", mode);
    var taken := Apply(cfg, Start(cfg), Take(0)).value;
    var lost := LoseOne(cfg, taken, mode);
    st := SpawnAgain(cfg, lost, mode);
    acts := [Take(0)] + (first + second);
    RunStep(cfg, Start(cfg), Take(0), first + second);
    RunAppend(cfg, taken, first, second);
  }
}
