/**
 * The publishers one scenario runs against. The steps of a boot are functions on values, so
 * that the interleaved run can take them one at a time; the class composes them the way
 * `boot`, `use`, `reboot` and `stop` do.
 */
module Cluster {
  import opened Text
  import opened Paths

  /** PERSIST_STORAGE_MODE as the scenario gave it: a text, or a bare `mode` attribute. */
  datatype Mode = Named(text: string) | Bare

  datatype Ports = Ports(rest: int, mcp: int)

  /** What a cluster is built with: its port bases, and where and under which tag its server roots go. */
  datatype Plan = Plan(basePort: int, baseMcp: int, workdir: Path, tag: string)

  function RootLeaf(tag: string, name: string): string {
    "server-" + tag + name
  }

  datatype Publisher = Publisher(pid: nat, mode: Mode)

  datatype Publishers = Publishers(
    pubs: map<string, Publisher>, ports: map<string, Ports>, nextIdx: nat, roots: seq<string>)

  const EMPTY := Publishers(map[], map[], 0, [])

  /** A server process: which worker's cluster and which name started it, where, how, and whether with --init. */
  datatype Process = Process(owner: nat, name: string, ports: Ports, mode: Mode, init: bool)

  datatype Machine = Machine(live: map<nat, Process>, nextPid: nat)

  function PortsAt(plan: Plan, i: nat): Ports {
    Ports(plan.basePort + i * 100, plan.baseMcp + i * 100)
  }

  // ---------- The steps of a boot ----------

  /** portsFor: the ports a name already has, else the next ones. */
  function WithPorts(plan: Plan, c: Publishers, name: string): Publishers {
    if name in c.ports then c
    else c.(ports := c.ports[name := PortsAt(plan, c.nextIdx)], nextIdx := c.nextIdx + 1)
  }

  function Kill(m: Machine, pid: nat): Machine {
    m.(live := m.live - {pid})
  }

  /** Stop a name's running server and forget it. */
  function Release(c: Publishers, name: string): Publishers {
    c.(pubs := c.pubs - {name})
  }

  function Released(c: Publishers, m: Machine, name: string): Machine {
    if name in c.pubs then Kill(m, c.pubs[name].pid) else m
  }

  /** Give the name its ports and its root. */
  function Prepare(plan: Plan, c: Publishers, name: string): Publishers {
    var c' := WithPorts(plan, c, name);
    var root := JoinedText(plan.workdir, RootLeaf(plan.tag, name));
    if root in c'.roots then c' else c'.(roots := c'.roots + [root])
  }

  lemma PreparedPorts(plan: Plan, c: Publishers, name: string)
    ensures name in Prepare(plan, c, name).ports && Prepare(plan, c, name).pubs == c.pubs
  {
  }

  /** Start a process on the name's ports. */
  function Spawned(c: Publishers, m: Machine, owner: nat, name: string, mode: Mode, init: bool): Machine
    requires name in c.ports
  {
    Machine(m.live[m.nextPid := Process(owner, name, c.ports[name], mode, init)], m.nextPid + 1)
  }

  function Register(c: Publishers, name: string, pid: nat, mode: Mode): Publishers {
    c.(pubs := c.pubs[name := Publisher(pid, mode)])
  }

  /** How a start may go: serving; never serving, and killed; or serving but failing its first probe. */
  datatype Outcome = Serving | StartFails | ProbeFails

  /** A whole boot. */
  function BootCluster(plan: Plan, c: Publishers, m: Machine, name: string, mode: Mode, outcome: Outcome): Publishers {
    var c' := Prepare(plan, Release(c, name), name);
    if outcome == Serving then Register(c', name, m.nextPid, mode) else c'
  }

  function BootMachine(plan: Plan, c: Publishers, m: Machine, owner: nat, name: string, mode: Mode, init: bool,
                       outcome: Outcome): Machine {
    var c' := Prepare(plan, Release(c, name), name);
    PreparedPorts(plan, Release(c, name), name);
    var m' := Spawned(c', Released(c, m, name), owner, name, mode, init);
    if outcome == StartFails then Kill(m', m.nextPid) else m'
  }

  /** The running publisher may be handed out again as it is. */
  predicate Reusable(c: Publishers, name: string, mode: Mode, init: Option<bool>, hasEnv: bool) {
    name in c.pubs && c.pubs[name].mode == mode && init.None? && !hasEnv
  }

  // ---------- What every step keeps ----------

  /** Each name has the ports of some index handed out, no two names of the same one, and each index a name. */
  ghost predicate PortsAssigned(plan: Plan, c: Publishers) {
    && (forall a | a in c.ports :: exists i: nat :: i < c.nextIdx && c.ports[a] == PortsAt(plan, i))
    && (forall a, b | a in c.ports && b in c.ports && a != b :: c.ports[a] != c.ports[b])
    && (forall i: nat | i < c.nextIdx :: PortsAt(plan, i) in c.ports.Values)
    && c.pubs.Keys <= c.ports.Keys
  }

  lemma PrepareKeepsPorts(plan: Plan, c: Publishers, name: string)
    requires PortsAssigned(plan, c)
    ensures PortsAssigned(plan, Prepare(plan, c, name))
    ensures forall a | a in c.ports :: a in Prepare(plan, c, name).ports && Prepare(plan, c, name).ports[a] == c.ports[a]
  {
    var c' := Prepare(plan, c, name);
    if name !in c.ports {
      var given := PortsAt(plan, c.nextIdx);
      assert c'.ports == c.ports[name := given];
      forall a | a in c.ports ensures c.ports[a] != given {
        var i: nat :| i < c.nextIdx && c.ports[a] == PortsAt(plan, i);
      }
      forall i: nat | i < c'.nextIdx ensures PortsAt(plan, i) in c'.ports.Values {
        if i == c.nextIdx {
          assert c'.ports[name] == given;
        } else {
          assert PortsAt(plan, i) in c.ports.Values;
          var a :| a in c.ports && c.ports[a] == PortsAt(plan, i);
          assert c'.ports[a] == PortsAt(plan, i);
        }
      }
    }
  }

  lemma BootedState(plan: Plan, c: Publishers, m: Machine, name: string, mode: Mode, outcome: Outcome)
    ensures var c', p := BootCluster(plan, c, m, name, mode, outcome), Prepare(plan, Release(c, name), name);
            && c'.ports == p.ports && c'.nextIdx == p.nextIdx && name in c'.ports
            && c'.pubs.Keys <= c.pubs.Keys + {name} && c'.pubs - {name} == c.pubs - {name}
  {
  }

  /** A boot moves no name's ports and touches no other name's server. */
  lemma BootKeepsPorts(plan: Plan, c: Publishers, m: Machine, name: string, mode: Mode, outcome: Outcome)
    requires PortsAssigned(plan, c)
    ensures var c' := BootCluster(plan, c, m, name, mode, outcome);
            && PortsAssigned(plan, c')
            && (forall a | a in c.ports :: a in c'.ports && c'.ports[a] == c.ports[a])
            && c'.pubs - {name} == c.pubs - {name}
  {
    BootedState(plan, c, m, name, mode, outcome);
    var p := Prepare(plan, Release(c, name), name);
    assert PortsAssigned(plan, Release(c, name));
    PrepareKeepsPorts(plan, Release(c, name), name);
    SamePortsAssigned(plan, p, BootCluster(plan, c, m, name, mode, outcome));
  }

  lemma SamePortsAssigned(plan: Plan, p: Publishers, c: Publishers)
    requires PortsAssigned(plan, p) && c.ports == p.ports && c.nextIdx == p.nextIdx && c.pubs.Keys <= p.ports.Keys
    ensures PortsAssigned(plan, c)
  {
  }

  /** A boot that succeeds leaves the name's server running, on its ports, in the mode asked for. */
  lemma BootServes(plan: Plan, c: Publishers, m: Machine, owner: nat, name: string, mode: Mode, init: bool)
    ensures var c' := BootCluster(plan, c, m, name, mode, Serving);
            var m' := BootMachine(plan, c, m, owner, name, mode, init, Serving);
            && name in c'.pubs && c'.pubs[name] == Publisher(m.nextPid, mode) && name in c'.ports
            && m.nextPid in m'.live && m'.live[m.nextPid] == Process(owner, name, c'.ports[name], mode, init)
  {
  }

  /** What a boot leaves, by how it goes: the old server stopped, and a new one unless it never served. */
  lemma BootLeaves(plan: Plan, c: Publishers, m: Machine, owner: nat, name: string, mode: Mode, init: bool, outcome: Outcome)
    requires m.nextPid !in m.live
    ensures var c', m' := BootCluster(plan, c, m, name, mode, outcome), BootMachine(plan, c, m, owner, name, mode, init, outcome);
            var kept := if name in c.pubs then m.live - {c.pubs[name].pid} else m.live;
            && name in c'.ports && (name in c.ports ==> c'.ports[name] == c.ports[name])
            && (name !in c.ports ==>
                  c'.ports[name] == Ports(plan.basePort + 100 * c.nextIdx, plan.baseMcp + 100 * c.nextIdx))
            && m'.live == (if outcome == StartFails then kept
                           else kept[m.nextPid := Process(owner, name, c'.ports[name], mode, init)])
            && m'.nextPid == m.nextPid + 1
            && (name in c'.pubs <==> outcome == Serving)
            && var root := JoinedText(plan.workdir, "server-" + plan.tag + name);
               c'.roots == if root in c.roots then c.roots else c.roots + [root]
  {
    PreparedPorts(plan, Release(c, name), name);
    var kept := if name in c.pubs then m.live - {c.pubs[name].pid} else m.live;
    assert kept[m.nextPid := Process(owner, name, WithPorts(plan, c, name).ports[name], mode, init)] - {m.nextPid} == kept;
  }

  // ---------- The class ----------

  /** The computer the servers run on, shared by every cluster. */
  class Host {
    var machine: Machine

    constructor ()
      ensures machine == Machine(map[], 0)
    {
      machine := Machine(map[], 0);
    }
  }

  class PublisherCluster {
    const plan: Plan
    const owner: nat
    const host: Host
    var pubs: map<string, Publisher>
    var ports: map<string, Ports>
    var nextIdx: nat
    var roots: seq<string>

    function View(): Publishers
      reads this
    {
      Publishers(pubs, ports, nextIdx, roots)
    }

    constructor (plan: Plan, owner: nat, host: Host)
      ensures View() == EMPTY && this.plan == plan && this.owner == owner && this.host == host
    {
      this.plan, this.owner, this.host := plan, owner, host;
      pubs, ports, nextIdx, roots := map[], map[], 0, [];
    }

    method PortsFor(name: string) returns (p: Ports)
      modifies this`ports, this`nextIdx
      ensures View() == WithPorts(plan, old(View()), name)
      ensures name in ports && p == ports[name]
    {
      if name !in ports {
        var i := nextIdx;
        nextIdx := nextIdx + 1;
        ports := ports[name := Ports(plan.basePort + i * 100, plan.baseMcp + i * 100)];
      }
      p := ports[name];
    }

    method Boot(name: string, mode: Mode, init: bool, outcome: Outcome) returns (pid: Option<nat>)
      modifies this, host
      ensures View() == BootCluster(plan, old(View()), old(host.machine), name, mode, outcome)
      ensures host.machine == BootMachine(plan, old(View()), old(host.machine), owner, name, mode, init, outcome)
      ensures pid == if outcome == Serving then Some(old(host.machine.nextPid)) else None
    {
      if name in pubs {
        host.machine := Kill(host.machine, pubs[name].pid);
        pubs := pubs - {name};
      }
      assert View() == Release(old(View()), name);
      var p := PortsFor(name);
      var serverRoot := JoinedText(plan.workdir, RootLeaf(plan.tag, name));
      if serverRoot !in roots {
        roots := roots + [serverRoot];
      }
      assert View() == Prepare(plan, Release(old(View()), name), name);
      var started := host.machine.nextPid;
      host.machine := Machine(host.machine.live[started := Process(owner, name, p, mode, init)], started + 1);
      if outcome == StartFails {
        host.machine := Kill(host.machine, started);
        return None;
      }
      if outcome == ProbeFails {
        return None;
      }
      pubs := pubs[name := Publisher(started, mode)];
      pid := Some(started);
    }

    /** Hands out the publisher as it runs, in the same mode with neither init nor environment asked for; else boots it. */
    method Use(name: string, mode: Mode, init: Option<bool>, hasEnv: bool, outcome: Outcome) returns (pid: Option<nat>)
      modifies this, host
      ensures Reusable(old(View()), name, mode, init, hasEnv)
         <==> name in old(pubs) && old(pubs)[name].mode == mode && init == None && !hasEnv
      ensures name in old(pubs) && old(pubs)[name].mode == mode && init == None && !hasEnv ==>
                View() == old(View()) && host.machine == old(host.machine) && pid == Some(pubs[name].pid)
      ensures !(name in old(pubs) && old(pubs)[name].mode == mode && init == None && !hasEnv) ==>
                var withInit := if init.Some? then init.value else true;
                && View() == BootCluster(plan, old(View()), old(host.machine), name, mode, outcome)
                && host.machine == BootMachine(plan, old(View()), old(host.machine), owner, name, mode, withInit, outcome)
    {
      if name in pubs && pubs[name].mode == mode && init.None? && !hasEnv {
        return Some(pubs[name].pid);
      }
      pid := Boot(name, mode, if init.Some? then init.value else true, outcome);
    }

    /** Boots it in any case, and with --init only if that is asked for. */
    method Reboot(name: string, mode: Mode, init: Option<bool>, outcome: Outcome) returns (pid: Option<nat>)
      modifies this, host
      ensures View() == BootCluster(plan, old(View()), old(host.machine), name, mode, outcome)
      ensures host.machine
           == BootMachine(plan, old(View()), old(host.machine), owner, name, mode, init == Some(true), outcome)
    {
      pid := Boot(name, mode, if init.Some? then init.value else false, outcome);
    }

    /** Stops every registered server, and no other. */
    method Stop()
      modifies this, host
      ensures host.machine == Machine(old(host.machine.live) - PidsOf(old(pubs)), old(host.machine.nextPid))
      ensures View() == old(View()).(pubs := map[], roots := [])
    {
      var remaining := pubs.Keys;
      while remaining != {}
        invariant remaining <= pubs.Keys
        invariant unchanged(this)
        invariant host.machine.nextPid == old(host.machine.nextPid)
        invariant host.machine.live == old(host.machine.live) - PidsOf(pubs - remaining)
      {
        var name :| name in remaining;
        assert remaining - {name} + {name} == remaining;
        remaining := remaining - {name};
        PidsOfOneMore(pubs, remaining, name);
        host.machine := Kill(host.machine, pubs[name].pid);
      }
      assert pubs - remaining == pubs;
      pubs := map[];
      roots := [];
    }
  }

  function PidsOf(pubs: map<string, Publisher>): set<nat> {
    set name | name in pubs :: pubs[name].pid
  }

  lemma PidsOfOneMore(pubs: map<string, Publisher>, remaining: set<string>, name: string)
    requires name in pubs && name !in remaining
    ensures PidsOf(pubs - remaining) == PidsOf(pubs - (remaining + {name})) + {pubs[name].pid}
  {
    var before, after := pubs - (remaining + {name}), pubs - remaining;
    forall pid | pid in PidsOf(after) ensures pid in PidsOf(before) + {pubs[name].pid} {
      var a :| a in after && after[a].pid == pid;
      assert a != name ==> a in before && before[a].pid == pid;
    }
    forall pid | pid in PidsOf(before) ensures pid in PidsOf(after) {
      var a :| a in before && before[a].pid == pid;
      assert a in after && after[a].pid == pid;
    }
    assert name in after && after[name].pid in PidsOf(after);
  }
}
