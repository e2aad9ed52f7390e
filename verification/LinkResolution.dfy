/**
 * The path a file name really names: the resolver that follows one link at a time, against
 * the kernel's own component-by-component resolution.
 */
module LinkResolution {
  import opened Text
  import opened Paths

  datatype Node = File | Directory | Symlink(target: string)

  /** The nodes that exist, each under the link-free path that reaches it. */
  type FileSystem = map<Path, Node>

  predicate IsLink(fs: FileSystem, p: Path) {
    p in fs && fs[p].Symlink?
  }

  const MAX_HOPS: nat := 40

  function RealPath(fs: FileSystem, target: Path, hops: nat): Path
    requires hops <= MAX_HOPS
    decreases MAX_HOPS - hops, |target|
  {
    if target == [] then []
    else
      var parent := RealPath(fs, target[..|target| - 1], hops);
      var here := parent + [target[|target| - 1]];
      if hops < MAX_HOPS && IsLink(fs, here) then RealPath(fs, Resolve(parent, fs[here].target), hops + 1)
      else here
  }

  /** Somewhere in resolving target a link was met with the hops spent. */
  predicate RunsOut(fs: FileSystem, target: Path, hops: nat)
    requires hops <= MAX_HOPS
    decreases MAX_HOPS - hops, |target|
  {
    target != [] &&
    var parent := RealPath(fs, target[..|target| - 1], hops);
    var here := parent + [target[|target| - 1]];
    || RunsOut(fs, target[..|target| - 1], hops)
    || (IsLink(fs, here) && (hops == MAX_HOPS || RunsOut(fs, Resolve(parent, fs[here].target), hops + 1)))
  }

  predicate IsWithinDirectory(fs: FileSystem, cwd: Path, target: string, root: string) {
    var realRoot := Render(RealPath(fs, Resolve(cwd, root), 0));
    var realTarget := Render(RealPath(fs, Resolve(cwd, target), 0));
    realTarget == realRoot || realRoot + "/" <= realTarget
  }

  // ---------- Reference: pathname resolution ----------

  /**
   * The kernel's walk: from cur, enter each part in turn; on a link, put its target in front
   * of the parts still to come. `fuel` counts the links that may be expanded. The result
   * carries what is left of it, and is None when a link is met with none left.
   */
  function Walk(fs: FileSystem, cur: Path, parts: seq<string>, fuel: nat): Option<(Path, nat)>
    decreases fuel, |parts|
  {
    if parts == [] then Some((cur, fuel))
    else
      var next := Enter(cur, parts[0]);
      if IsName(parts[0]) && IsLink(fs, next) then
        if fuel == 0 then None
        else Walk(fs, Origin(fs[next].target, cur), Parts(fs[next].target) + parts[1..], fuel - 1)
      else Walk(fs, next, parts[1..], fuel)
  }

  predicate WalksTo(fs: FileSystem, target: Path, fuel: nat, end: Path) {
    var r := Walk(fs, [], target, fuel);
    r.Some? && r.value.0 == end
  }

  /** No prefix of the path is a link. */
  predicate LinkFree(fs: FileSystem, p: Path) {
    forall k | 0 < k <= |p| :: !IsLink(fs, p[..k])
  }

  /** Read as text from cur, the parts never climb out of a path with a link on it. */
  predicate ClimbsFreely(fs: FileSystem, cur: Path, parts: seq<string>)
    decreases |parts|
  {
    parts != [] ==> (parts[0] == ".." ==> LinkFree(fs, cur)) && ClimbsFreely(fs, Enter(cur, parts[0]), parts[1..])
  }

  /** The link at dir/name, read from dir, climbs freely. */
  predicate LinkClimbsFreely(fs: FileSystem, dir: Path, name: string) {
    IsLink(fs, dir + [name]) ==>
      var raw := fs[dir + [name]].target; ClimbsFreely(fs, Origin(raw, dir), Parts(raw))
  }

  /** Every link followed in resolving target climbs freely; what other links do is no matter. */
  predicate MetClimbFreely(fs: FileSystem, target: Path, hops: nat)
    requires hops <= MAX_HOPS
    decreases MAX_HOPS - hops, |target|
  {
    target == [] ||
    var parent := RealPath(fs, target[..|target| - 1], hops);
    var here := parent + [target[|target| - 1]];
    && MetClimbFreely(fs, target[..|target| - 1], hops)
    && (hops < MAX_HOPS && IsLink(fs, here) ==>
          && (LinkFree(fs, parent) ==> LinkClimbsFreely(fs, parent, target[|target| - 1]))
          && MetClimbFreely(fs, Resolve(parent, fs[here].target), hops + 1))
  }

  // ---------- The walk composes ----------

  lemma {:induction false} WalkAppend(fs: FileSystem, cur: Path, a: seq<string>, b: seq<string>, fuel: nat)
    ensures Walk(fs, cur, a + b, fuel) ==
            match Walk(fs, cur, a, fuel)
            case None => None
            case Some((mid, left)) => Walk(fs, mid, b, left)
    decreases fuel, |a|
  {
    if a == [] {
      assert a + b == b;
    } else {
      assert (a + b)[1..] == a[1..] + b;
      var next := Enter(cur, a[0]);
      if IsName(a[0]) && IsLink(fs, next) {
        if fuel > 0 {
          var raw := fs[next].target;
          assert Parts(raw) + (a + b)[1..] == (Parts(raw) + a[1..]) + b;
          WalkAppend(fs, Origin(raw, cur), Parts(raw) + a[1..], b, fuel - 1);
        }
      } else {
        WalkAppend(fs, next, a[1..], b, fuel);
      }
    }
  }

  lemma {:induction false} WalkMoreFuel(fs: FileSystem, cur: Path, parts: seq<string>, fuel: nat, extra: nat)
    requires Walk(fs, cur, parts, fuel).Some?
    ensures var r := Walk(fs, cur, parts, fuel).value;
            r.1 <= fuel && Walk(fs, cur, parts, fuel + extra) == Some((r.0, r.1 + extra))
    decreases fuel, |parts|
  {
    if parts != [] {
      var next := Enter(cur, parts[0]);
      if IsName(parts[0]) && IsLink(fs, next) {
        var raw := fs[next].target;
        WalkMoreFuel(fs, Origin(raw, cur), Parts(raw) + parts[1..], fuel - 1, extra);
      } else {
        WalkMoreFuel(fs, next, parts[1..], fuel, extra);
      }
    }
  }

  /** The walk's end does not depend on the fuel that let it get there. */
  lemma WalkDeterministic(fs: FileSystem, cur: Path, parts: seq<string>, fuel: nat, fuel': nat)
    requires Walk(fs, cur, parts, fuel).Some? && Walk(fs, cur, parts, fuel').Some?
    ensures Walk(fs, cur, parts, fuel).value.0 == Walk(fs, cur, parts, fuel').value.0
  {
    WalkMoreFuel(fs, cur, parts, fuel, fuel');
    WalkMoreFuel(fs, cur, parts, fuel', fuel);
  }

  /** On link-free ground the walk goes straight down. */
  lemma {:induction false} WalkLinkFree(fs: FileSystem, cur: Path, down: Path, fuel: nat)
    requires Names(down) && LinkFree(fs, cur + down)
    ensures Walk(fs, cur, down, fuel) == Some((cur + down, fuel))
    decreases |down|
  {
    if down == [] {
      assert cur + down == cur;
    } else {
      assert down[0] in down;
      assert (cur + down)[..|cur| + 1] == cur + [down[0]];
      assert cur + [down[0]] + down[1..] == cur + down;
      WalkLinkFree(fs, cur + [down[0]], down[1..], fuel);
    }
  }

  // ---------- A link's target, read by the kernel and by path.resolve ----------

  function OnlyNames(parts: seq<string>): seq<string> {
    if parts == [] then []
    else if IsName(parts[0]) then [parts[0]] + OnlyNames(parts[1..])
    else OnlyNames(parts[1..])
  }

  lemma {:induction false} CollapseNames(cur: Path, parts: seq<string>)
    requires ".." !in parts
    ensures Collapse(cur, parts) == cur + OnlyNames(parts) && Names(OnlyNames(parts))
    decreases |parts|
  {
    if parts != [] {
      CollapseNames(Enter(cur, parts[0]), parts[1..]);
      assert parts[0] in parts;
      assert IsName(parts[0]) ==> cur + [parts[0]] + OnlyNames(parts[1..]) == cur + OnlyNames(parts);
    }
  }

  lemma {:induction false} WalkNames(fs: FileSystem, cur: Path, parts: seq<string>, fuel: nat)
    requires ".." !in parts
    ensures Walk(fs, cur, parts, fuel) == Walk(fs, cur, OnlyNames(parts), fuel)
    decreases fuel, |parts|, 0
  {
    if parts != [] {
      assert parts[0] in parts;
      var next, rest := Enter(cur, parts[0]), parts[1..];
      if !IsName(parts[0]) {
        WalkNames(fs, cur, rest, fuel);
      } else {
        assert OnlyNames(parts)[1..] == OnlyNames(rest);
        if !IsLink(fs, next) {
          WalkNames(fs, next, rest, fuel);
        } else if fuel > 0 {
          WalkExpandedNames(fs, Origin(fs[next].target, cur), Parts(fs[next].target), rest, fuel - 1);
        }
      }
    }
  }

  lemma {:induction false} WalkExpandedNames(fs: FileSystem, cur: Path, front: seq<string>, rest: seq<string>, fuel: nat)
    requires ".." !in rest
    ensures Walk(fs, cur, front + rest, fuel) == Walk(fs, cur, front + OnlyNames(rest), fuel)
    decreases fuel, |rest|, 1
  {
    WalkAppend(fs, cur, front, rest, fuel);
    WalkAppend(fs, cur, front, OnlyNames(rest), fuel);
    var r := Walk(fs, cur, front, fuel);
    if r.Some? {
      WalkMoreFuel(fs, cur, front, fuel, 0);
      WalkNames(fs, r.value.0, rest, r.value.1);
    }
  }

  lemma LinkFreeParent(fs: FileSystem, p: Path)
    requires LinkFree(fs, p) && p != []
    ensures LinkFree(fs, p[..|p| - 1])
  {
    var q := p[..|p| - 1];
    forall k | 0 < k <= |q| ensures !IsLink(fs, q[..k]) {
      assert q[..k] == p[..k];
    }
  }

  /** A target with every `..` in front of its first name climbs freely from any link-free path. */
  lemma {:induction false} LeadingClimbsAreFree(fs: FileSystem, cur: Path, parts: seq<string>)
    requires forall i, j | 0 <= i < j < |parts| && IsName(parts[i]) :: parts[j] != ".."
    requires LinkFree(fs, cur) || ".." !in parts
    ensures ClimbsFreely(fs, cur, parts)
    decreases |parts|
  {
    if parts != [] {
      if parts[0] == ".." && cur != [] {
        LinkFreeParent(fs, cur);
      }
      LeadingClimbsAreFree(fs, Enter(cur, parts[0]), parts[1..]);
    }
  }

  /** Past a link, parts that climb freely do not climb at all. */
  lemma {:induction false} NoClimbPastLink(fs: FileSystem, cur: Path, parts: seq<string>)
    requires !LinkFree(fs, cur) && ClimbsFreely(fs, cur, parts)
    ensures ".." !in parts
    decreases |parts|
  {
    if parts != [] {
      var k :| 0 < k <= |cur| && IsLink(fs, cur[..k]);
      assert Enter(cur, parts[0])[..k] == cur[..k];
      NoClimbPastLink(fs, Enter(cur, parts[0]), parts[1..]);
      assert parts == [parts[0]] + parts[1..];
    }
  }

  /** A target whose first name is a link from here: it is names all the way, for both readers. */
  lemma WalkIntoLink(fs: FileSystem, cur: Path, parts: seq<string>, fuel: nat)
    requires Names(cur) && LinkFree(fs, cur) && ClimbsFreely(fs, cur, parts)
    requires parts != [] && IsName(parts[0]) && IsLink(fs, cur + [parts[0]])
    ensures Walk(fs, cur, parts, fuel) == Walk(fs, [], Collapse(cur, parts), fuel)
    ensures Names(Collapse(cur, parts))
  {
    var next := cur + [parts[0]];
    assert next[..|next|] == next;
    NoClimbPastLink(fs, next, parts[1..]);
    assert ".." !in parts by { assert parts == [parts[0]] + parts[1..]; }
    CollapseNames(cur, parts);
    WalkNames(fs, cur, parts, fuel);
    WalkAppend(fs, [], cur, OnlyNames(parts), fuel);
    assert [] + cur == cur;
    WalkLinkFree(fs, [], cur, fuel);
  }

  /** From a link-free directory, walking a target is walking its collapsed path from the root. */
  lemma {:induction false} WalkTarget(fs: FileSystem, cur: Path, parts: seq<string>, fuel: nat)
    requires Names(cur) && LinkFree(fs, cur) && ClimbsFreely(fs, cur, parts)
    ensures Walk(fs, cur, parts, fuel) == Walk(fs, [], Collapse(cur, parts), fuel)
    ensures Names(Collapse(cur, parts))
    decreases |parts|
  {
    if parts == [] {
      assert [] + cur == cur;
      WalkLinkFree(fs, [], cur, fuel);
    } else if IsName(parts[0]) && IsLink(fs, cur + [parts[0]]) {
      WalkIntoLink(fs, cur, parts, fuel);
    } else {
      if parts[0] == ".." && cur != [] {
        LinkFreeParent(fs, cur);
      } else if IsName(parts[0]) {
        LinkFreeStep(fs, cur, parts[0]);
      }
      WalkTarget(fs, Enter(cur, parts[0]), parts[1..], fuel);
    }
  }

  /** A link met at the end of a link-free directory. */
  lemma WalkLink(fs: FileSystem, parent: Path, name: string, fuel: nat)
    requires Names(parent) && LinkFree(fs, parent) && IsName(name) && LinkClimbsFreely(fs, parent, name)
    requires IsLink(fs, parent + [name]) && fuel > 0
    ensures var resolved := Resolve(parent, fs[parent + [name]].target);
            Names(resolved) && Walk(fs, parent, [name], fuel) == Walk(fs, [], resolved, fuel - 1)
  {
    var raw := fs[parent + [name]].target;
    assert Parts(raw) + [name][1..] == Parts(raw);
    WalkTarget(fs, Origin(raw, parent), Parts(raw), fuel - 1);
  }

  // ---------- The resolver is the kernel's walk ----------

  lemma SplitLast(target: Path)
    requires target != []
    ensures target == target[..|target| - 1] + [target[|target| - 1]]
  {
  }

  lemma NamesFront(target: Path)
    requires target != [] && Names(target)
    ensures Names(target[..|target| - 1]) && IsName(target[|target| - 1])
  {
  }

  lemma LinkFreeStep(fs: FileSystem, parent: Path, name: string)
    requires LinkFree(fs, parent) && !IsLink(fs, parent + [name])
    ensures LinkFree(fs, parent + [name])
  {
    var here := parent + [name];
    forall k | 0 < k <= |here| ensures !IsLink(fs, here[..k]) {
      if k < |here| {
        assert here[..k] == parent[..k];
      } else {
        assert here[..k] == here;
      }
    }
  }

  lemma LinkResolves(fs: FileSystem, parent: Path, name: string)
    requires Names(parent) && LinkFree(fs, parent) && IsName(name) && LinkClimbsFreely(fs, parent, name)
    requires IsLink(fs, parent + [name])
    ensures Names(Resolve(parent, fs[parent + [name]].target))
  {
    WalkLink(fs, parent, name, 1);
  }

  /** The walk to a directory, then through the link at its end, then to what the link names. */
  lemma WalkThroughLink(fs: FileSystem, target: Path, parent: Path, name: string, f: nat, g: nat)
    requires target != [] && target[|target| - 1] == name
    requires Names(parent) && LinkFree(fs, parent) && IsName(name) && LinkClimbsFreely(fs, parent, name)
    requires IsLink(fs, parent + [name])
    requires WalksTo(fs, target[..|target| - 1], f, parent)
    requires Walk(fs, [], Resolve(parent, fs[parent + [name]].target), g).Some?
    ensures WalksTo(fs, target, f + (g + 1), Walk(fs, [], Resolve(parent, fs[parent + [name]].target), g).value.0)
  {
    var front := target[..|target| - 1];
    SplitLast(target);
    WalkMoreFuel(fs, [], front, f, g + 1);
    WalkAppend(fs, [], front, [name], f + (g + 1));
    var left := Walk(fs, [], front, f).value.1;
    WalkLink(fs, parent, name, left + g + 1);
    WalkMoreFuel(fs, [], Resolve(parent, fs[parent + [name]].target), g, left);
  }

  lemma WalkToNode(fs: FileSystem, target: Path, parent: Path, name: string, f: nat)
    requires target != [] && target[|target| - 1] == name
    requires Names(parent) && LinkFree(fs, parent) && IsName(name) && !IsLink(fs, parent + [name])
    requires WalksTo(fs, target[..|target| - 1], f, parent)
    ensures WalksTo(fs, target, f, parent + [name]) && LinkFree(fs, parent + [name]) && Names(parent + [name])
  {
    SplitLast(target);
    WalkAppend(fs, [], target[..|target| - 1], [name], f);
    LinkFreeStep(fs, parent, name);
  }

  /**
   * Short of the hop limit, the resolver ends where pathname resolution ends, at a path no
   * part of which is a link, whether or not anything exists there.
   */
  lemma {:induction false} RealPathWalks(fs: FileSystem, target: Path, hops: nat) returns (fuel: nat)
    requires hops <= MAX_HOPS && Names(target) && MetClimbFreely(fs, target, hops) && !RunsOut(fs, target, hops)
    ensures var end := RealPath(fs, target, hops);
            Names(end) && LinkFree(fs, end) && WalksTo(fs, target, fuel, end)
    decreases MAX_HOPS - hops, |target|
  {
    fuel := 0;
    if target != [] {
      var front, name := target[..|target| - 1], target[|target| - 1];
      NamesFront(target);
      var f := RealPathWalks(fs, front, hops);
      var parent := RealPath(fs, front, hops);
      if IsLink(fs, parent + [name]) {
        LinkResolves(fs, parent, name);
        var g := RealPathWalks(fs, Resolve(parent, fs[parent + [name]].target), hops + 1);
        fuel := f + (g + 1);
        WalkThroughLink(fs, target, parent, name, f, g);
      } else {
        fuel := f;
        WalkToNode(fs, target, parent, name, f);
      }
    }
  }

  /** A walk to a link and through it spends one link on it and the rest on what it names. */
  lemma WalkSpent(fs: FileSystem, front: Path, name: string, fuel: nat)
    requires Walk(fs, [], front + [name], fuel).Some?
    ensures Walk(fs, [], front, fuel).Some?
    ensures var (parent, left) := Walk(fs, [], front, fuel).value;
            var (end, rest) := Walk(fs, [], front + [name], fuel).value;
            && rest <= left <= fuel && Walk(fs, parent, [name], left) == Some((end, rest))
  {
    WalkAppend(fs, [], front, [name], fuel);
    var r := Walk(fs, [], front, fuel).value;
    WalkMoreFuel(fs, [], front, fuel, 0);
    WalkMoreFuel(fs, r.0, [name], r.1, 0);
  }

  lemma WalkPlain(fs: FileSystem, parent: Path, name: string, fuel: nat)
    requires IsName(name) && !IsLink(fs, parent + [name])
    ensures Walk(fs, parent, [name], fuel) == Some((parent + [name], fuel))
  {
    assert Walk(fs, parent, [name], fuel) == Walk(fs, parent + [name], [name][1..], fuel);
  }

  lemma WalkLinkNeedsFuel(fs: FileSystem, parent: Path, name: string, fuel: nat)
    requires IsName(name) && IsLink(fs, parent + [name]) && Walk(fs, parent, [name], fuel).Some?
    ensures Walk(fs, parent, [name], fuel).value.1 < fuel
  {
    var raw := fs[parent + [name]].target;
    WalkMoreFuel(fs, Origin(raw, parent), Parts(raw) + [name][1..], fuel - 1, 0);
  }

  /** A name the kernel resolves through at most 40 links is one the resolver resolves. */
  lemma {:induction false} EnoughHops(fs: FileSystem, target: Path, hops: nat, fuel: nat)
    requires hops <= MAX_HOPS && Names(target) && MetClimbFreely(fs, target, hops)
    requires Walk(fs, [], target, fuel).Some?
    requires hops + fuel - Walk(fs, [], target, fuel).value.1 <= MAX_HOPS
    ensures !RunsOut(fs, target, hops) && RealPath(fs, target, hops) == Walk(fs, [], target, fuel).value.0
    decreases MAX_HOPS - hops, |target|
  {
    if target != [] {
      var front, name := target[..|target| - 1], target[|target| - 1];
      NamesFront(target);
      SplitLast(target);
      WalkSpent(fs, front, name, fuel);
      var parent, left := Walk(fs, [], front, fuel).value.0, Walk(fs, [], front, fuel).value.1;
      EnoughHops(fs, front, hops, fuel);
      var _ := RealPathWalks(fs, front, hops);
      if IsLink(fs, parent + [name]) {
        WalkLinkNeedsFuel(fs, parent, name, left);
        WalkLink(fs, parent, name, left);
        EnoughHops(fs, Resolve(parent, fs[parent + [name]].target), hops + 1, left - 1);
      } else {
        WalkPlain(fs, parent, name, left);
      }
    }
  }

  /** The resolver agrees with the kernel on every name resolved through at most 40 links. */
  lemma RealPathIsKernelPath(fs: FileSystem, target: Path, fuel: nat)
    requires Names(target) && MetClimbFreely(fs, target, 0) && fuel <= MAX_HOPS
    requires Walk(fs, [], target, fuel).Some?
    ensures RealPath(fs, target, 0) == Walk(fs, [], target, fuel).value.0
  {
    WalkMoreFuel(fs, [], target, fuel, 0);
    EnoughHops(fs, target, 0, fuel);
  }

  /** Where every link of the file system climbs freely, so do those that are met. */
  lemma {:induction false} AllClimbFreely(fs: FileSystem, target: Path, hops: nat)
    requires hops <= MAX_HOPS
    requires forall dir, name | IsLink(fs, dir + [name]) && LinkFree(fs, dir) :: LinkClimbsFreely(fs, dir, name)
    ensures MetClimbFreely(fs, target, hops)
    decreases MAX_HOPS - hops, |target|
  {
    if target != [] {
      var front, name := target[..|target| - 1], target[|target| - 1];
      AllClimbFreely(fs, front, hops);
      var parent := RealPath(fs, front, hops);
      if hops < MAX_HOPS && IsLink(fs, parent + [name]) {
        AllClimbFreely(fs, Resolve(parent, fs[parent + [name]].target), hops + 1);
      }
    }
  }

  lemma {:induction false} RealPathFixed(fs: FileSystem, p: Path, hops: nat)
    requires hops <= MAX_HOPS && LinkFree(fs, p)
    ensures RealPath(fs, p, hops) == p
    decreases |p|
  {
    if p != [] {
      SplitLast(p);
      LinkFreeParent(fs, p);
      RealPathFixed(fs, p[..|p| - 1], hops);
      assert p[..|p|] == p;
    }
  }

  /** Resolving twice is resolving once. */
  lemma RealPathIdempotent(fs: FileSystem, target: Path)
    requires Names(target) && MetClimbFreely(fs, target, 0) && !RunsOut(fs, target, 0)
    ensures RealPath(fs, RealPath(fs, target, 0), 0) == RealPath(fs, target, 0)
  {
    var _ := RealPathWalks(fs, target, 0);
    RealPathFixed(fs, RealPath(fs, target, 0), 0);
  }

  // ---------- Past the hop bound ----------

  function Hop(i: nat): (name: string)
    ensures |name| == i + 1 && forall c | c in name :: c == 'h'
  {
    seq(i + 1, _ => 'h')
  }

  /** n links, each naming the next. */
  function Chain(n: nat): FileSystem {
    map i | 0 <= i < n :: [Hop(i)] := Symlink(Hop(i + 1))
  }

  lemma HopResolves(i: nat)
    ensures Resolve([], Hop(i)) == [Hop(i)]
  {
    SplitOnNone(Hop(i), '/');
    assert Hop(i)[0] in Hop(i);
    assert IsName(Hop(i)) && Enter([], Hop(i)) == [Hop(i)];
    assert Collapse([], [Hop(i)]) == Collapse([Hop(i)], [Hop(i)][1..]);
  }

  lemma {:induction false} ChainFollowed(n: nat, i: nat, hops: nat)
    requires hops <= MAX_HOPS && i + (MAX_HOPS - hops) <= n
    ensures RealPath(Chain(n), [Hop(i)], hops) == [Hop(i + (MAX_HOPS - hops))]
    decreases MAX_HOPS - hops
  {
    assert [Hop(i)][..0] == [] && [] + [Hop(i)] == [Hop(i)];
    if hops < MAX_HOPS {
      assert [Hop(i)] in Chain(n);
      HopResolves(i + 1);
      ChainFollowed(n, i + 1, hops + 1);
    }
  }

  /** On a chain of eighty links, resolving once stops half way, and resolving again goes on. */
  lemma CutoffNotIdempotent()
    ensures RealPath(Chain(80), [Hop(0)], 0) == [Hop(40)]
    ensures RealPath(Chain(80), RealPath(Chain(80), [Hop(0)], 0), 0) == [Hop(80)] != [Hop(40)]
  {
    ChainFollowed(80, 0, 0);
    ChainFollowed(80, 40, 0);
  }

  // ---------- Containment, compared as text ----------

  lemma ResolveSlashFree(dir: Path, raw: string)
    requires SlashFree(dir)
    ensures SlashFree(Resolve(dir, raw))
  {
    SplitOnPartsFree(raw, '/');
    CollapseSlashFree(Origin(raw, dir), Parts(raw));
  }

  lemma {:induction false} RealPathShape(fs: FileSystem, target: Path, hops: nat)
    requires hops <= MAX_HOPS && Names(target) && SlashFree(target)
    ensures Names(RealPath(fs, target, hops)) && SlashFree(RealPath(fs, target, hops))
    decreases MAX_HOPS - hops, |target|
  {
    if target != [] {
      NamesFront(target);
      RealPathShape(fs, target[..|target| - 1], hops);
      var parent := RealPath(fs, target[..|target| - 1], hops);
      var here := parent + [target[|target| - 1]];
      assert target[|target| - 1] in target;
      if hops < MAX_HOPS && IsLink(fs, here) {
        var raw := fs[here].target;
        ResolveSlashFree(parent, raw);
        CollapseKeepsNames(Origin(raw, parent), Parts(raw));
        RealPathShape(fs, Resolve(parent, raw), hops + 1);
      }
    }
  }

  lemma ShorterHeadShows(a: string, a': string, b: string, b': string)
    requires a + a' <= b + b' && |a| < |b| && a' != "" && a'[0] == '/'
    ensures '/' in b
  {
    assert b[|a|] == (b + b')[|a|] == (a + a')[|a|];
  }

  lemma LongerHeadShows(a: string, a': string, b: string, b': string)
    requires a + a' <= b + b' && |a| > |b| && (b' == "" || b'[0] == '/')
    ensures '/' in a
  {
    assert a[|b|] == (a + a')[|b|] == (b + b')[|b|];
  }

  /** Slash-free heads, each followed by a slash or by nothing: a prefix compares head by head. */
  lemma SameHead(a: string, a': string, b: string, b': string)
    requires '/' !in a && '/' !in b
    requires a' != "" && a'[0] == '/' && (b' == "" || b'[0] == '/')
    ensures a + a' <= b + b' <==> a == b && a' <= b'
  {
    if a + a' <= b + b' {
      if |a| < |b| {
        ShorterHeadShows(a, a', b, b');
      } else if |a| > |b| {
        LongerHeadShows(a, a', b, b');
      } else {
        assert a == (a + a')[..|a|] == (b + b')[..|b|] == b;
        assert a' == (a + a')[|a|..] && b' == (b + b')[|b|..];
      }
    }
  }

  lemma SlashedStarts(p: Path)
    ensures p != [] ==> Slashed(p) != "" && Slashed(p)[0] == '/'
  {
  }

  lemma SlashedStep(r: Path, t: Path)
    requires SlashFree(r) && SlashFree(t) && r != [] && t != []
    ensures Slashed(r) + "/" <= Slashed(t) <==> r[0] == t[0] && Slashed(r[1..]) + "/" <= Slashed(t[1..])
  {
    assert r[0] in r && t[0] in t;
    SlashedStarts(r[1..]);
    SlashedStarts(t[1..]);
    StepText(r[0], Slashed(r[1..]), t[0], Slashed(t[1..]));
  }

  lemma StepText(a: string, x: string, b: string, y: string)
    requires '/' !in a && '/' !in b && (x == "" || x[0] == '/') && (y == "" || y[0] == '/')
    ensures "/" + a + x + "/" <= "/" + b + y <==> a == b && x + "/" <= y
  {
    assert "/" + a + x + "/" == "/" + (a + (x + "/")) && "/" + b + y == "/" + (b + y);
    PrefixAfter("/", a + (x + "/"), b + y);
    SameHead(a, x + "/", b, y);
  }

  lemma BelowByHead(r: Path, t: Path)
    requires r != [] && t != []
    ensures (r <= t && r != t) <==> r[0] == t[0] && r[1..] <= t[1..] && r[1..] != t[1..]
  {
  }

  /** A path's text followed by a slash starts another path's text exactly below it. */
  lemma {:induction false} SlashedPrefix(r: Path, t: Path)
    requires SlashFree(r) && SlashFree(t)
    ensures Slashed(r) + "/" <= Slashed(t) <==> r <= t && r != t
    decreases |r|
  {
    if r == [] {
      assert Slashed(r) + "/" == "/";
    } else if t != [] {
      SlashedStep(r, t);
      SlashedPrefix(r[1..], t[1..]);
      BelowByHead(r, t);
    }
  }

  lemma SameText(a: string, x: string, b: string, y: string)
    requires '/' !in a && '/' !in b && (x == "" || x[0] == '/') && (y == "" || y[0] == '/')
    requires "/" + a + x == "/" + b + y
    ensures a == b && x == y
  {
    assert a + x == ("/" + a + x)[1..] == ("/" + b + y)[1..] == b + y;
    assert a + (x + "/") == (a + x) + "/" == (b + y) + "/" == b + (y + "/");
    SameHead(a, x + "/", b, y + "/");
    assert x == (x + "/")[..|x|];
  }

  lemma {:induction false} SlashedInjective(r: Path, t: Path)
    requires SlashFree(r) && SlashFree(t) && Slashed(r) == Slashed(t)
    ensures r == t
    decreases |r|
  {
    if r != [] && t != [] {
      assert r[0] in r && t[0] in t;
      SlashedStarts(r[1..]);
      SlashedStarts(t[1..]);
      SameText(r[0], Slashed(r[1..]), t[0], Slashed(t[1..]));
      SlashedInjective(r[1..], t[1..]);
      assert r == [r[0]] + r[1..] && t == [t[0]] + t[1..];
    }
  }

  lemma TextWithin(r: Path, t: Path)
    requires SlashFree(r) && SlashFree(t) && Names(r) && Names(t)
    ensures Render(t) == Render(r) || Render(r) + "/" <= Render(t)
       <==> if r == [] then t == [] else r <= t
  {
    SlashedPrefix(r, t);
    if r == [] {
      if t != [] {
        assert t[0] in t;
        assert Slashed(t) == "/" + (t[0] + Slashed(t[1..]));
        assert t[0][0] != '/' by { assert t[0][0] in t[0]; }
        assert Render(t)[1] == t[0][0];
      }
    } else if t != [] {
      if Slashed(r) == Slashed(t) {
        SlashedInjective(r, t);
      }
    } else {
      assert r[0] in r;
      assert |Slashed(r)| >= 2;
    }
  }

  /**
   * The text comparison holds exactly when the resolved target is the resolved root or lies
   * below it, component by component; except that nothing but `/` itself is within `/`.
   */
  lemma WithinIsDescendant(fs: FileSystem, cwd: Path, target: string, root: string)
    requires Names(cwd) && SlashFree(cwd)
    ensures var r := RealPath(fs, Resolve(cwd, root), 0);
            var t := RealPath(fs, Resolve(cwd, target), 0);
            IsWithinDirectory(fs, cwd, target, root) <==> if r == [] then t == [] else r <= t
  {
    ResolveSlashFree(cwd, root);
    ResolveSlashFree(cwd, target);
    CollapseKeepsNames(Origin(root, cwd), Parts(root));
    CollapseKeepsNames(Origin(target, cwd), Parts(target));
    RealPathShape(fs, Resolve(cwd, root), 0);
    RealPathShape(fs, Resolve(cwd, target), 0);
    TextWithin(RealPath(fs, Resolve(cwd, root), 0), RealPath(fs, Resolve(cwd, target), 0));
  }

  // ---------- Why links must climb first ----------

  /** One link climbing back out of another: /l -> a/../b, where /a -> /x/y. */
  function Crossed(l: string, a: string, b: string, x: string, y: string): FileSystem {
    map[[l] := Symlink(Join([a, "..", b], "/")), [a] := Symlink(Join(["", x, y], "/"))]
  }

  predicate FileName(part: string) {
    IsName(part) && '/' !in part
  }

  lemma CollapseCrossed(a: string, b: string)
    requires IsName(a) && IsName(b)
    ensures Collapse([], [a, "..", b]) == [b]
  {
    assert [a, "..", b][1..] == ["..", b] && ["..", b][1..] == [b] && [b][1..] == [];
    assert [] + [a] == [a] && [a][..0] == [] && [] + [b] == [b];
    assert Collapse([], [a, "..", b]) == Collapse([a], ["..", b]);
    assert Collapse([a], ["..", b]) == Collapse([], [b]);
    assert Collapse([], [b]) == Collapse([b], []);
  }

  lemma LoneLinkFree(fs: FileSystem, p: Path)
    requires p != [] && forall q | q in fs :: |q| == 1 && q[0] != p[0]
    ensures LinkFree(fs, p)
  {
  }

  /** The kernel, at the far end of /a, climbs to /x and enters b. */
  lemma WalkCrossed(fs: FileSystem, b: string, x: string, y: string)
    requires FileName(b) && FileName(x) && FileName(y) && LinkFree(fs, [x, y]) && LinkFree(fs, [x, b])
    ensures Walk(fs, [], ["", x, y, "..", b], 0) == Some(([x, b], 0))
  {
    assert ["", x, y, "..", b][1..] == [x, y] + ["..", b] && [] + [x, y] == [x, y];
    WalkLinkFree(fs, [], [x, y], 0);
    WalkAppend(fs, [], [x, y], ["..", b], 0);
    assert Enter([x, y], "..") == [x] && ["..", b][1..] == [b] && [x] + [b] == [x, b];
    WalkLinkFree(fs, [x], [b], 0);
  }

  /** For all such names: reading the text gives /b, and the kernel gives /x/b. */
  lemma ClimbingBackDiffers(l: string, a: string, b: string, x: string, y: string)
    requires FileName(l) && FileName(a) && FileName(b) && FileName(x) && FileName(y)
    requires l != a && b != l && b != a && x != l && x != a
    ensures RealPath(Crossed(l, a, b, x, y), [l], 0) == [b]
    ensures Walk(Crossed(l, a, b, x, y), [], [l], 2) == Some(([x, b], 0))
  {
    var fs := Crossed(l, a, b, x, y);
    var toB, toY := Join([a, "..", b], "/"), Join(["", x, y], "/");
    SplitOnJoin([a, "..", b], '/');
    SplitOnJoin(["", x, y], '/');
    LoneLinkFree(fs, [b]);
    LoneLinkFree(fs, [x, y]);
    LoneLinkFree(fs, [x, b]);
    CrossedText(fs, l, a, b, toB);
    WalkCrossed(fs, b, x, y);
    CrossedWalk(fs, l, a, b, x, y, toB, toY);
  }

  lemma CrossedText(fs: FileSystem, l: string, a: string, b: string, toB: string)
    requires IsName(a) && IsName(b) && [l] in fs && fs[[l]] == Symlink(toB) && Parts(toB) == [a, "..", b]
    requires LinkFree(fs, [b])
    ensures RealPath(fs, [l], 0) == [b]
  {
    assert [l][..0] == [] && [] + [l] == [l];
    CollapseCrossed(a, b);
    RealPathFixed(fs, [b], 1);
  }

  lemma CrossedWalk(fs: FileSystem, l: string, a: string, b: string, x: string, y: string, toB: string, toY: string)
    requires IsName(l) && IsName(a)
    requires [l] in fs && fs[[l]] == Symlink(toB) && Parts(toB) == [a, "..", b]
    requires [a] in fs && fs[[a]] == Symlink(toY) && Parts(toY) == ["", x, y]
    ensures Walk(fs, [], [l], 2) == Walk(fs, [], ["", x, y, "..", b], 0)
  {
    assert [] + [l] == [l] && [a, "..", b] + [l][1..] == [a, "..", b];
    assert Walk(fs, [], [l], 2) == Walk(fs, [], [a, "..", b], 1);
    assert [] + [a] == [a] && ["", x, y] + [a, "..", b][1..] == ["", x, y, "..", b];
    OriginRoot(toB);
    OriginRoot(toY);
  }

  lemma OriginRoot(raw: string)
    ensures Origin(raw, []) == []
  {
  }

  // ---------- Absolute links ----------

  /** A link to an absolute path leads there, whatever directory it stands in. */
  lemma AbsoluteLinkFollowed(fs: FileSystem, dir: Path, name: string, p: Path)
    requires LinkFree(fs, dir) && Names(p) && SlashFree(p)
    requires IsLink(fs, dir + [name]) && fs[dir + [name]].target == Render(p)
    ensures RealPath(fs, dir + [name], 0) == RealPath(fs, p, 1)
  {
    RealPathFixed(fs, dir, 0);
    assert (dir + [name])[..|dir + [name]| - 1] == dir;
    AbsoluteResolves(dir, p);
  }

  /** A link to a relative path leads below its own directory. */
  lemma RelativeLinkFollowed(fs: FileSystem, dir: Path, name: string, p: Path)
    requires LinkFree(fs, dir) && p != [] && Names(p) && SlashFree(p)
    requires IsLink(fs, dir + [name]) && fs[dir + [name]].target == Join(p, "/")
    ensures RealPath(fs, dir + [name], 0) == RealPath(fs, dir + p, 1)
  {
    RealPathFixed(fs, dir, 0);
    assert (dir + [name])[..|dir + [name]| - 1] == dir;
    RelativeResolves(dir, p);
  }

  /** So a link out of a directory, to an absolute path that no link is on, is not within it. */
  lemma LinkOutIsOutside(fs: FileSystem, cwd: Path, name: string, p: Path)
    requires cwd != [] && Names(cwd) && SlashFree(cwd) && LinkFree(fs, cwd) && IsName(name) && '/' !in name
    requires Names(p) && SlashFree(p) && LinkFree(fs, p) && !(cwd <= p)
    requires IsLink(fs, cwd + [name]) && fs[cwd + [name]].target == Render(p)
    ensures !IsWithinDirectory(fs, cwd, name, "")
  {
    DirectoryItself(cwd);
    RelativeResolves(cwd, [name]);
    assert Join([name], "/") == name;
    AbsoluteLinkFollowed(fs, cwd, name, p);
    RealPathFixed(fs, p, 1);
    RealPathFixed(fs, cwd, 0);
    WithinIsDescendant(fs, cwd, name, "");
  }
}
