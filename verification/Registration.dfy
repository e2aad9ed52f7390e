/**
 * Registering packages in a publisher config: which environment a package lands in, and what
 * any sequence of registrations may change.
 */
module Registration {
  import opened Text

  /** A package as a config file lists it: any of it may be missing, or not an object at all. */
  datatype Entry = NotAPackage | Entry(name: Option<string>, location: Option<string>)

  /** An environment's value. No packages: the key is missing. */
  datatype EnvValue = NotAnObject | EnvValue(name: Option<string>, packages: Option<seq<Entry>>)

  datatype Config = Config(frozen: bool, environments: seq<EnvValue>)

  datatype Package = Package(name: string, location: string)

  datatype Refusal = Frozen | TakenElsewhere

  datatype Verdict = Refused(why: Refusal) | Registered(added: bool, envName: Option<string>)

  // ---------- Which environment ----------

  function FirstNamed(envs: seq<EnvValue>, envName: string): Option<nat> {
    if envs == [] then None
    else if envs[0].EnvValue? && envs[0].name == Some(envName) then Some(0)
    else match FirstNamed(envs[1..], envName) case None => None case Some(i) => Some(i + 1)
  }

  function FirstObject(envs: seq<EnvValue>): Option<nat> {
    if envs == [] then None
    else if envs[0].EnvValue? then Some(0)
    else match FirstObject(envs[1..]) case None => None case Some(i) => Some(i + 1)
  }

  /** targetEnvironment: the named one, else the first, else none. */
  function Target(envs: seq<EnvValue>, envName: string): Option<nat> {
    if FirstNamed(envs, envName).Some? then FirstNamed(envs, envName) else FirstObject(envs)
  }

  function ResolveEnvironmentName(c: Config, envName: string): string {
    match Target(c.environments, envName)
    case None => envName
    case Some(i) =>
      if i < |c.environments| && c.environments[i].EnvValue? && c.environments[i].name.Some?
      then c.environments[i].name.value else envName
  }

  lemma {:induction false} FirstNamedFound(envs: seq<EnvValue>, envName: string)
    ensures var r := FirstNamed(envs, envName);
            match r
            case None => forall e | e in envs :: e.EnvValue? ==> e.name != Some(envName)
            case Some(i) => i < |envs| && envs[i].EnvValue? && envs[i].name == Some(envName)
  {
    if envs != [] {
      FirstNamedFound(envs[1..], envName);
    }
  }

  lemma {:induction false} FirstObjectFound(envs: seq<EnvValue>)
    ensures var r := FirstObject(envs);
            match r
            case None => forall e | e in envs :: e.NotAnObject?
            case Some(i) => i < |envs| && envs[i].EnvValue?
  {
    if envs != [] {
      FirstObjectFound(envs[1..]);
    }
  }

  lemma TargetFound(envs: seq<EnvValue>, envName: string)
    ensures var t := Target(envs, envName);
            && (t.Some? ==> t.value < |envs| && envs[t.value].EnvValue?)
            && (t.None? ==> forall e | e in envs :: e.NotAnObject?)
  {
    FirstNamedFound(envs, envName);
    FirstObjectFound(envs);
  }

  // ---------- Registering ----------

  /** The location listed by the first entry under a name. */
  function Find(entries: seq<Entry>, name: string): Option<Option<string>> {
    if entries == [] then None
    else if entries[0].Entry? && entries[0].name == Some(name) then Some(entries[0].location)
    else Find(entries[1..], name)
  }

  function Listed(e: EnvValue): seq<Entry> {
    if e.EnvValue? && e.packages.Some? then e.packages.value else []
  }

  function CanAdd(c: Config, envName: string, pkg: Package): Option<Refusal> {
    if c.frozen then Some(Frozen)
    else
      TargetFound(c.environments, envName);
      match Target(c.environments, envName)
      case None => None
      case Some(i) =>
        var existing := Find(Listed(c.environments[i]), pkg.name);
        if existing.Some? && existing.value != Some(pkg.location) then Some(TakenElsewhere) else None
  }

  function NewEntry(pkg: Package): Entry {
    Entry(Some(pkg.name), Some(pkg.location))
  }

  /** The config after the call, and what the call reports; a refused one changes nothing. */
  function Add(c: Config, envName: string, pkg: Package): (Config, Verdict) {
    match CanAdd(c, envName, pkg)
    case Some(why) => (c, Refused(why))
    case None =>
      TargetFound(c.environments, envName);
      match Target(c.environments, envName)
      case None => (c.(environments := c.environments + [Created(envName, pkg)]), Registered(true, Some(envName)))
      case Some(i) =>
        var e := c.environments[i];
        if Find(Listed(e), pkg.name).Some? then (c, Registered(false, e.name))
        else (c.(environments := c.environments[i := Extended(e, pkg)]), Registered(true, e.name))
  }

  function Created(envName: string, pkg: Package): EnvValue {
    EnvValue(Some(envName), Some([NewEntry(pkg)]))
  }

  function Extended(e: EnvValue, pkg: Package): EnvValue
    requires e.EnvValue?
  {
    e.(packages := Some(Listed(e) + [NewEntry(pkg)]))
  }

  datatype Call = Call(envName: string, pkg: Package)

  function AddAll(c: Config, calls: seq<Call>): Config
    decreases |calls|
  {
    if calls == [] then c else AddAll(Add(c, calls[0].envName, calls[0].pkg).0, calls[1..])
  }

  // ---------- A registration, written out ----------

  predicate Named(e: EnvValue, envName: string) {
    e.EnvValue? && e.name == Some(envName)
  }

  /** The lowest index with the name; where there is none, the lowest that is an object at all. */
  predicate IsTarget(envs: seq<EnvValue>, envName: string, i: nat) {
    i < |envs| &&
    if exists j :: 0 <= j < |envs| && Named(envs[j], envName)
    then Named(envs[i], envName) && forall j | 0 <= j < i :: !Named(envs[j], envName)
    else envs[i].EnvValue? && forall j | 0 <= j < i :: envs[j].NotAnObject?
  }

  /** The first entry of a name. */
  predicate IsFirstEntry(entries: seq<Entry>, name: string, k: nat) {
    k < |entries| && entries[k].Entry? && entries[k].name == Some(name)
    && forall j | 0 <= j < k :: entries[j].Entry? ==> entries[j].name != Some(name)
  }

  predicate NoEntry(entries: seq<Entry>, name: string) {
    forall j | 0 <= j < |entries| && entries[j].Entry? :: entries[j].name != Some(name)
  }

  /** Every outcome of a call: refused and nothing changed, already there and nothing changed, or one entry more. */
  ghost predicate Outcome(c: Config, envName: string, pkg: Package, d: Config, v: Verdict) {
    var entry := Entry(Some(pkg.name), Some(pkg.location));
    if c.frozen then d == c && v == Refused(Frozen)
    else if forall e | e in c.environments :: e.NotAnObject? then
      && d == Config(false, c.environments + [EnvValue(Some(envName), Some([entry]))])
      && v == Registered(true, Some(envName))
    else exists i: nat :: IsTarget(c.environments, envName, i) && OutcomeAt(c, i, pkg, d, v)
  }

  ghost predicate OutcomeAt(c: Config, i: nat, pkg: Package, d: Config, v: Verdict)
    requires i < |c.environments| && c.environments[i].EnvValue?
  {
    var e := c.environments[i];
    var listed := if e.packages.Some? then e.packages.value else [];
    if NoEntry(listed, pkg.name) then
      && d == Config(c.frozen, c.environments[i := EnvValue(e.name, Some(listed + [Entry(Some(pkg.name), Some(pkg.location))]))])
      && v == Registered(true, e.name)
    else
      exists k: nat :: IsFirstEntry(listed, pkg.name, k) && d == c
        && v == if listed[k].location == Some(pkg.location) then Registered(false, e.name) else Refused(TakenElsewhere)
  }

  lemma {:induction false} FirstNamedLowest(envs: seq<EnvValue>, envName: string)
    ensures var r := FirstNamed(envs, envName);
            && (r.None? ==> forall j | 0 <= j < |envs| :: !Named(envs[j], envName))
            && (r.Some? ==> r.value < |envs| && Named(envs[r.value], envName)
                            && forall j | 0 <= j < r.value :: !Named(envs[j], envName))
  {
    if envs != [] {
      FirstNamedLowest(envs[1..], envName);
      assert forall j | 0 <= j < |envs| - 1 :: envs[1..][j] == envs[j + 1];
      forall j | 0 < j < |envs| ensures envs[j] == envs[1..][j - 1] { }
    }
  }

  lemma {:induction false} FirstObjectLowest(envs: seq<EnvValue>)
    ensures var r := FirstObject(envs);
            && (r.None? ==> forall j | 0 <= j < |envs| :: envs[j].NotAnObject?)
            && (r.Some? ==> r.value < |envs| && envs[r.value].EnvValue? && forall j | 0 <= j < r.value :: envs[j].NotAnObject?)
  {
    if envs != [] {
      FirstObjectLowest(envs[1..]);
      forall j | 0 < j < |envs| ensures envs[j] == envs[1..][j - 1] { }
    }
  }

  lemma TargetIs(envs: seq<EnvValue>, envName: string)
    ensures var t := Target(envs, envName);
            && (t.None? <==> forall e | e in envs :: e.NotAnObject?)
            && (t.Some? ==> IsTarget(envs, envName, t.value))
  {
    FirstNamedLowest(envs, envName);
    FirstObjectLowest(envs);
    var t := Target(envs, envName);
    if t.None? {
      forall e | e in envs ensures e.NotAnObject? {
        var j :| 0 <= j < |envs| && envs[j] == e;
      }
    } else {
      assert envs[t.value] in envs;
    }
  }

  lemma {:induction false} FindIs(entries: seq<Entry>, name: string)
    ensures Find(entries, name).None? <==> NoEntry(entries, name)
    ensures Find(entries, name).Some? ==>
              exists k: nat :: IsFirstEntry(entries, name, k) && entries[k].location == Find(entries, name).value
  {
    if entries != [] {
      var rest := entries[1..];
      forall j | 0 < j < |entries| ensures entries[j] == rest[j - 1] { }
      if entries[0].Entry? && entries[0].name == Some(name) {
        assert IsFirstEntry(entries, name, 0);
      } else {
        FindIs(rest, name);
        assert forall j | 0 <= j < |rest| :: rest[j] == entries[j + 1];
        if Find(rest, name).Some? {
          var k: nat :| IsFirstEntry(rest, name, k) && rest[k].location == Find(rest, name).value;
          assert entries[k + 1] == rest[k];
          assert IsFirstEntry(entries, name, k + 1);
        }
      }
    }
  }

  /** A call comes out so, whatever the config. */
  lemma AddComesOut(c: Config, envName: string, pkg: Package)
    ensures Outcome(c, envName, pkg, Add(c, envName, pkg).0, Add(c, envName, pkg).1)
  {
    TargetIs(c.environments, envName);
    TargetFound(c.environments, envName);
    var t := Target(c.environments, envName);
    if t.Some? {
      FindIs(Listed(c.environments[t.value]), pkg.name);
      if !c.frozen {
        AddAtTarget(c, envName, pkg, t.value);
      }
    }
  }

  lemma AddAtTarget(c: Config, envName: string, pkg: Package, i: nat)
    requires !c.frozen && i < |c.environments| && c.environments[i].EnvValue? && Target(c.environments, envName) == Some(i)
    ensures OutcomeAt(c, i, pkg, Add(c, envName, pkg).0, Add(c, envName, pkg).1)
  {
    FindIs(Listed(c.environments[i]), pkg.name);
  }

  // ---------- What a run of registrations keeps ----------

  /** The environments of d are those of c, some with entries appended; or there was none to keep. */
  predicate Grows(c: Config, d: Config) {
    && c.frozen == d.frozen && |c.environments| <= |d.environments|
    && forall i | 0 <= i < |c.environments| ::
         var e, e' := c.environments[i], d.environments[i];
         if e.NotAnObject? then e' == e
         else e'.EnvValue? && e'.name == e.name && Listed(e) <= Listed(e')
  }

  lemma {:induction false} FirstNamedSame(a: seq<EnvValue>, b: seq<EnvValue>, envName: string)
    requires |a| == |b|
    requires forall i | 0 <= i < |a| :: a[i].EnvValue? == b[i].EnvValue? && (a[i].EnvValue? ==> a[i].name == b[i].name)
    ensures FirstNamed(a, envName) == FirstNamed(b, envName) && FirstObject(a) == FirstObject(b)
  {
    if a != [] {
      FirstNamedSame(a[1..], b[1..], envName);
    }
  }

  /** Once a call has an environment to land in, no other call moves where it lands. */
  lemma TargetStays(c: Config, call: Call, envName: string)
    requires Target(c.environments, envName).Some?
    ensures var d := Add(c, call.envName, call.pkg).0;
            |d.environments| == |c.environments| && Target(d.environments, envName) == Target(c.environments, envName)
  {
    TargetFound(c.environments, envName);
    TargetFound(c.environments, call.envName);
    assert c.environments[Target(c.environments, envName).value] in c.environments;
    FirstNamedSame(c.environments, Add(c, call.envName, call.pkg).0.environments, envName);
  }

  /** A call touches one environment, and there only appends its own entry. */
  lemma AddGrows(c: Config, envName: string, pkg: Package)
    ensures var (d, v) := Add(c, envName, pkg);
            && Grows(c, d)
            && (forall i | 0 <= i < |c.environments| && Some(i) != Target(c.environments, envName) ::
                  d.environments[i] == c.environments[i])
            && (v.Registered? ==> Target(d.environments, envName).Some?)
  {
    TargetFound(c.environments, envName);
    var (d, v) := Add(c, envName, pkg);
    if Target(c.environments, envName).None? && v.Registered? {
      TargetFound(d.environments, envName);
      assert d.environments[|c.environments|] in d.environments;
    } else {
      if Target(c.environments, envName).Some? {
        TargetStays(c, Call(envName, pkg), envName);
      }
    }
  }

  lemma GrowsTransitive(c: Config, d: Config, e: Config)
    requires Grows(c, d) && Grows(d, e)
    ensures Grows(c, e)
  {
  }

  /** Over any calls, environments keep their places and names, and lists only grow at the end. */
  lemma {:induction false} AddAllGrows(c: Config, calls: seq<Call>)
    ensures Grows(c, AddAll(c, calls))
    decreases |calls|
  {
    if calls != [] {
      var d := Add(c, calls[0].envName, calls[0].pkg).0;
      AddGrows(c, calls[0].envName, calls[0].pkg);
      AddAllGrows(d, calls[1..]);
      GrowsTransitive(c, d, AddAll(d, calls[1..]));
    }
  }

  /** Over any calls, the environment a name resolves to stays the one it was. */
  lemma {:induction false} TargetStaysThroughout(c: Config, calls: seq<Call>, envName: string)
    requires Target(c.environments, envName).Some?
    ensures Target(AddAll(c, calls).environments, envName) == Target(c.environments, envName)
    decreases |calls|
  {
    if calls != [] {
      TargetStays(c, calls[0], envName);
      TargetStaysThroughout(Add(c, calls[0].envName, calls[0].pkg).0, calls[1..], envName);
    }
  }

  predicate UniqueNames(entries: seq<Entry>) {
    forall i, j | 0 <= i < j < |entries| && entries[i].Entry? && entries[j].Entry? && entries[i].name.Some? ::
      entries[i].name != entries[j].name
  }

  lemma {:induction false} FindNone(entries: seq<Entry>, name: string)
    ensures Find(entries, name).None? <==> forall e | e in entries && e.Entry? :: e.name != Some(name)
  {
    if entries != [] {
      FindNone(entries[1..], name);
    }
  }

  /** Names stay unique in every environment where they were. */
  lemma AddKeepsUnique(c: Config, envName: string, pkg: Package, i: nat)
    requires i < |c.environments| && UniqueNames(Listed(c.environments[i]))
    ensures i < |Add(c, envName, pkg).0.environments|
    ensures UniqueNames(Listed(Add(c, envName, pkg).0.environments[i]))
  {
    TargetFound(c.environments, envName);
    FindNone(Listed(c.environments[i]), pkg.name);
  }

  lemma {:induction false} AddAllKeepsUnique(c: Config, calls: seq<Call>, i: nat)
    requires i < |c.environments| && UniqueNames(Listed(c.environments[i]))
    ensures i < |AddAll(c, calls).environments| && UniqueNames(Listed(AddAll(c, calls).environments[i]))
    decreases |calls|
  {
    if calls != [] {
      AddKeepsUnique(c, calls[0].envName, calls[0].pkg, i);
      AddGrows(c, calls[0].envName, calls[0].pkg);
      AddAllKeepsUnique(Add(c, calls[0].envName, calls[0].pkg).0, calls[1..], i);
    }
  }

  // ---------- Where a package lands ----------

  /**
   * The name resolved before a successful call is that of the environment the package lands
   * in, if it has one, and stays the name resolved over any later calls.
   */
  lemma LandsWhereResolved(c: Config, envName: string, pkg: Package, later: seq<Call>)
    requires Add(c, envName, pkg).1.Registered?
    ensures var (d, verdict) := Add(c, envName, pkg);
            && (verdict.envName.Some? ==> verdict.envName.value == ResolveEnvironmentName(c, envName))
            && ResolveEnvironmentName(AddAll(d, later), envName) == ResolveEnvironmentName(c, envName)
  {
    var d := Add(c, envName, pkg).0;
    TargetFound(c.environments, envName);
    match Target(c.environments, envName) {
      case None =>
        AppendedTarget(c.environments, Created(envName, pkg), envName);
      case Some(i) =>
        TargetStays(c, Call(envName, pkg), envName);
        AddGrows(c, envName, pkg);
    }
    AddAllGrows(d, later);
    TargetStaysThroughout(d, later, envName);
  }

  // ---------- Registering again ----------

  /** The package is there under its own location for whoever asks by this environment name. */
  predicate Holds(c: Config, envName: string, pkg: Package) {
    var t := Target(c.environments, envName);
    && t.Some? && t.value < |c.environments|
    && var found := Find(Listed(c.environments[t.value]), pkg.name);
       found.Some? && found.value == Some(pkg.location)
  }

  lemma {:induction false} FindAppend(entries: seq<Entry>, more: seq<Entry>, name: string)
    ensures Find(entries + more, name)
         == if Find(entries, name).Some? then Find(entries, name) else Find(more, name)
  {
    if entries == [] {
      assert entries + more == more;
    } else {
      assert (entries + more)[1..] == entries[1..] + more;
      FindAppend(entries[1..], more, name);
    }
  }

  lemma RegisteredHolds(c: Config, envName: string, pkg: Package)
    requires Add(c, envName, pkg).1.Registered?
    ensures Holds(Add(c, envName, pkg).0, envName, pkg)
  {
    TargetFound(c.environments, envName);
    var d := Add(c, envName, pkg).0;
    match Target(c.environments, envName) {
      case None =>
        AppendedTarget(c.environments, Created(envName, pkg), envName);
      case Some(i) =>
        TargetStays(c, Call(envName, pkg), envName);
        FindAppend(Listed(c.environments[i]), [NewEntry(pkg)], pkg.name);
    }
  }

  lemma {:induction false} AppendedTarget(envs: seq<EnvValue>, e: EnvValue, envName: string)
    requires (forall x | x in envs :: x.NotAnObject?) && e.EnvValue? && e.name == Some(envName)
    ensures FirstNamed(envs + [e], envName) == Some(|envs|)
  {
    if envs == [] {
      assert envs + [e] == [e];
    } else {
      assert envs[0] in envs && (envs + [e])[1..] == envs[1..] + [e];
      AppendedTarget(envs[1..], e, envName);
    }
  }

  lemma AddKeepsHolds(c: Config, call: Call, envName: string, pkg: Package)
    requires Holds(c, envName, pkg)
    ensures Holds(Add(c, call.envName, call.pkg).0, envName, pkg)
  {
    TargetStays(c, call, envName);
    AddGrows(c, call.envName, call.pkg);
    var i := Target(c.environments, envName).value;
    TargetFound(c.environments, envName);
    var before, after := Listed(c.environments[i]), Listed(Add(c, call.envName, call.pkg).0.environments[i]);
    assert after == before + after[|before|..];
    FindAppend(before, after[|before|..], pkg.name);
  }

  lemma {:induction false} AddAllKeepsHolds(c: Config, calls: seq<Call>, envName: string, pkg: Package)
    requires Holds(c, envName, pkg)
    ensures Holds(AddAll(c, calls), envName, pkg)
    decreases |calls|
  {
    if calls != [] {
      AddKeepsHolds(c, calls[0], envName, pkg);
      AddAllKeepsHolds(Add(c, calls[0].envName, calls[0].pkg).0, calls[1..], envName, pkg);
    }
  }

  /** Repeating a call that succeeded, after any others, succeeds and changes nothing. */
  lemma RepeatIsNoOp(c: Config, envName: string, pkg: Package, later: seq<Call>)
    requires !c.frozen && Add(c, envName, pkg).1.Registered?
    ensures var end := AddAll(Add(c, envName, pkg).0, later);
            Add(end, envName, pkg).0 == end && Add(end, envName, pkg).1.Registered? && !Add(end, envName, pkg).1.added
  {
    var d := Add(c, envName, pkg).0;
    RegisteredHolds(c, envName, pkg);
    AddAllKeepsHolds(d, later, envName, pkg);
    AddGrows(c, envName, pkg);
    AddAllGrows(d, later);
  }

  // ---------- The objects the source mutates ----------

  class Environment {
    var name: Option<string>
    var packages: Option<seq<Entry>>

    function Value(): EnvValue
      reads this
    {
      EnvValue(name, packages)
    }

    constructor (name: string)
      ensures Value() == EnvValue(Some(name), Some([]))
    {
      this.name, packages := Some(name), Some([]);
    }
  }

  class PublisherConfig {
    var frozen: bool
    var environments: seq<Environment?>

    ghost function Objects(): set<object>
      reads this
    {
      set i | 0 <= i < |environments| && environments[i] != null :: environments[i] as object
    }

    /** No object is listed twice, as in anything JSON.parse returns. */
    ghost predicate Valid()
      reads this
    {
      forall i, j | 0 <= i < j < |environments| && environments[i] != null :: environments[i] != environments[j]
    }

    ghost function View(): Config
      reads this, Objects()
    {
      Config(frozen, seq(|environments|, i requires 0 <= i < |environments| reads this, Objects() =>
        if environments[i] == null then NotAnObject else environments[i].Value()))
    }

    constructor (frozen: bool)
      ensures Valid() && View() == Config(frozen, [])
    {
      this.frozen, environments := frozen, [];
    }

    method TargetEnvironment(envName: string) returns (at: Option<nat>)
      ensures at == Target(View().environments, envName)
    {
      ghost var envs := View().environments;
      at := None;
      for i := 0 to |environments|
        invariant at.None?
        invariant FirstNamed(envs, envName)
               == match FirstNamed(envs[i..], envName) case None => None case Some(k) => Some(i + k)
      {
        assert envs[i..][1..] == envs[i + 1..];
        if environments[i] != null && environments[i].name == Some(envName) {
          return Some(i);
        }
      }
      assert envs[|environments|..] == [];
      for i := 0 to |environments|
        invariant at.None?
        invariant FirstObject(envs)
               == match FirstObject(envs[i..]) case None => None case Some(k) => Some(i + k)
      {
        assert envs[i..][1..] == envs[i + 1..];
        if environments[i] != null {
          return Some(i);
        }
      }
    }

    method AddPackage(envName: string, pkg: Package) returns (verdict: Verdict)
      requires Valid()
      modifies this, Objects()
      ensures Valid() && (View(), verdict) == Add(old(View()), envName, pkg)
      ensures Outcome(old(View()), envName, pkg, View(), verdict)
    {
      AddComesOut(View(), envName, pkg);
      ghost var before := View();
      if frozen {
        return Refused(Frozen);
      }
      var at := TargetEnvironment(envName);
      TargetFound(before.environments, envName);
      if at.None? {
        var env := new Environment(envName);
        environments := environments + [env];
        env.packages := Some(env.packages.value + [NewEntry(pkg)]);
        assert [] + [NewEntry(pkg)] == [NewEntry(pkg)];
        assert View().environments == before.environments + [Created(envName, pkg)];
        return Registered(true, env.name);
      }
      var env := environments[at.value];
      var listed := if env.packages.Some? then env.packages.value else [];
      var existing := Find(listed, pkg.name);
      if existing.Some? && existing.value != Some(pkg.location) {
        return Refused(TakenElsewhere);
      }
      if existing.Some? {
        return Registered(false, env.name);
      }
      env.packages := Some(listed + [NewEntry(pkg)]);
      assert View().environments == before.environments[at.value := Extended(before.environments[at.value], pkg)];
      return Registered(true, env.name);
    }
  }
}
