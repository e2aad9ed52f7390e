/** Paths as the path module treats them: text, with no file system behind it. */
module Paths {
  import opened Text

  /** An absolute path: its components from the root down. */
  type Path = seq<string>

  predicate IsName(part: string) {
    part != "" && part != "." && part != ".."
  }

  predicate Names(p: seq<string>) {
    forall c | c in p :: IsName(c)
  }

  predicate SlashFree(p: seq<string>) {
    forall c | c in p :: '/' !in c
  }

  function Parts(raw: string): seq<string> {
    SplitOn(raw, '/')
  }

  /** Where a name starts: at the root if it is absolute, else at the directory it is read in. */
  function Origin(raw: string, dir: Path): Path {
    if raw != "" && raw[0] == '/' then [] else dir
  }

  /** One component, entered. */
  function Enter(cur: Path, part: string): Path {
    if part == "" || part == "." then cur
    else if part == ".." then (if cur == [] then [] else cur[..|cur| - 1])
    else cur + [part]
  }

  function Collapse(cur: Path, parts: seq<string>): Path
    decreases |parts|
  {
    if parts == [] then cur else Collapse(Enter(cur, parts[0]), parts[1..])
  }

  /** path.resolve(dir, raw): textual, links unseen. */
  function Resolve(dir: Path, raw: string): Path {
    Collapse(Origin(raw, dir), Parts(raw))
  }

  /** The characters of a path. */
  function Slashed(p: Path): string {
    if p == [] then "" else "/" + p[0] + Slashed(p[1..])
  }

  function Render(p: Path): string {
    if p == [] then "/" else Slashed(p)
  }

  /** path.join(dir, leaf): the directory it names. */
  function JoinedDir(dir: Path, leaf: string): Path {
    Collapse(dir, Parts(leaf))
  }

  /** And its text, which keeps a slash at the end. */
  function JoinedText(dir: Path, leaf: string): string {
    var p := JoinedDir(dir, leaf);
    if p != [] && EndsWith(leaf, "/") then Render(p) + "/" else Render(p)
  }

  lemma {:induction false} SplitOnPartsFree(s: string, sep: char)
    ensures forall part | part in SplitOn(s, sep) :: sep !in part
  {
    if s != "" {
      SplitOnPartsFree(s[1..], sep);
      var rest := SplitOn(s[1..], sep);
      assert rest[0] in rest;
      forall part | part in SplitOn(s, sep) ensures sep !in part {
        if s[0] == sep {
          assert part == "" || part in rest;
        } else {
          assert part == [s[0]] + rest[0] || part in rest[1..];
        }
      }
    }
  }

  lemma {:induction false} CollapseSlashFree(cur: Path, parts: seq<string>)
    requires SlashFree(cur) && SlashFree(parts)
    ensures SlashFree(Collapse(cur, parts))
    decreases |parts|
  {
    if parts != [] {
      assert parts[0] in parts;
      CollapseSlashFree(Enter(cur, parts[0]), parts[1..]);
    }
  }

  lemma {:induction false} CollapseKeepsNames(cur: Path, parts: seq<string>)
    requires Names(cur)
    ensures Names(Collapse(cur, parts))
    decreases |parts|
  {
    if parts != [] {
      CollapseKeepsNames(Enter(cur, parts[0]), parts[1..]);
    }
  }

  // ---------- What resolving a path comes to ----------

  lemma {:induction false} CollapseDown(cur: Path, p: Path)
    requires Names(p)
    ensures Collapse(cur, p) == cur + p
    decreases |p|
  {
    if p == [] {
      assert cur + p == cur;
    } else {
      assert p[0] in p;
      CollapseDown(cur + [p[0]], p[1..]);
      assert cur + [p[0]] + p[1..] == cur + p;
    }
  }

  lemma {:induction false} CollapseAppend(cur: Path, a: seq<string>, b: seq<string>)
    ensures Collapse(cur, a + b) == Collapse(Collapse(cur, a), b)
    decreases |a|
  {
    if a == [] {
      assert a + b == b;
    } else {
      assert (a + b)[1..] == a[1..] + b;
      CollapseAppend(Enter(cur, a[0]), a[1..], b);
    }
  }

  /** `.` and the empty part stay, `..` takes back the name before it, and at the root it stays too. */
  lemma CollapseLaws(cur: Path, a: seq<string>, name: string, b: seq<string>)
    requires IsName(name)
    ensures Collapse(cur, a + ["."] + b) == Collapse(cur, a + b)
    ensures Collapse(cur, a + [""] + b) == Collapse(cur, a + b)
    ensures Collapse(cur, a + [name, ".."] + b) == Collapse(cur, a + b)
    ensures Collapse([], [".."] + b) == Collapse([], b)
    ensures Collapse(cur, [name]) == cur + [name]
  {
    CollapseMiddle(cur, a, ["."], b);
    CollapseMiddle(cur, a, [""], b);
    CollapseMiddle(cur, a, [name, ".."], b);
    CollapseAppend(cur, a, b);
    StaysPut(Collapse(cur, a), name);
    assert ([".."] + b)[1..] == b;
    assert [name][1..] == [];
  }

  lemma CollapseMiddle(cur: Path, a: seq<string>, mid: seq<string>, b: seq<string>)
    ensures Collapse(cur, a + mid + b) == Collapse(Collapse(Collapse(cur, a), mid), b)
  {
    CollapseAppend(cur, a + mid, b);
    CollapseAppend(cur, a, mid);
  }

  lemma StaysPut(cur: Path, name: string)
    requires IsName(name)
    ensures Collapse(cur, ["."]) == cur && Collapse(cur, [""]) == cur && Collapse(cur, [name, ".."]) == cur
  {
    assert ["."][1..] == [] && [""][1..] == [] && [name, ".."][1..] == [".."] && [".."][1..] == [];
    assert Enter(cur + [name], "..") == cur;
  }

  lemma {:induction false} SlashedJoin(p: Path)
    ensures Slashed(p) == if p == [] then "" else "/" + Join(p, "/")
  {
    if |p| > 1 {
      SlashedJoin(p[1..]);
      assert Slashed(p) == "/" + p[0] + ("/" + Join(p[1..], "/"));
    } else if |p| == 1 {
      assert Slashed(p[1..]) == "" && "/" + p[0] + "" == "/" + p[0];
    }
  }

  /** An absolute name resolves to itself, wherever it is read. */
  lemma AbsoluteResolves(dir: Path, p: Path)
    requires Names(p) && SlashFree(p)
    ensures Resolve(dir, Render(p)) == p
  {
    SlashedJoin(p);
    if p == [] {
      assert SplitOn("/", '/') == ["", ""];
      assert ["", ""][1..] == [""] && [""][1..] == [];
    } else {
      assert forall part | part in p :: '/' !in part;
      SplitOnSeparator("", '/', Join(p, "/"));
      SplitOnJoin(p, '/');
      assert "" + ['/'] + Join(p, "/") == Render(p);
      assert Parts(Render(p)) == [""] + p && ([""] + p)[1..] == p;
      CollapseDown([], p);
      assert [] + p == p;
    }
  }

  /** A relative one resolves below the directory it is read in. */
  lemma RelativeResolves(dir: Path, p: Path)
    requires p != [] && Names(p) && SlashFree(p)
    ensures Resolve(dir, Join(p, "/")) == dir + p
  {
    assert forall part | part in p :: '/' !in part;
    SplitOnJoin(p, '/');
    assert p[0] in p && p[0] != "";
    assert Join(p, "/")[0] == p[0][0];
    assert p[0][0] in p[0];
    CollapseDown(dir, p);
  }

  /** An empty name is the directory itself, and `..` its parent. */
  lemma DirectoryItself(dir: Path)
    ensures Resolve(dir, "") == dir == Resolve(dir, ".")
    ensures Resolve(dir, "..") == if dir == [] then [] else dir[..|dir| - 1]
  {
    SplitOnNone("", '/');
    SplitOnNone(".", '/');
    SplitOnNone("..", '/');
    assert [""][1..] == [] && ["."][1..] == [] && [".."][1..] == [];
  }

  /** The text of a joined path, and of one whose last part was followed by a slash. */
  lemma JoinedTextIs(dir: Path, p: Path)
    requires p != [] && Names(p) && SlashFree(p)
    ensures JoinedText(dir, Join(p, "/")) == "/" + Join(dir + p, "/")
    ensures JoinedText(dir, Join(p, "/") + "/") == "/" + Join(dir + p, "/") + "/"
  {
    var leaf := Join(p, "/");
    assert forall part | part in p :: '/' !in part;
    SplitOnJoin(p, '/');
    CollapseDown(dir, p);
    SlashedJoin(dir + p);
    LastCharacter(p);
    SplitOnSeparator(leaf, '/', "");
    assert leaf + ['/'] + "" == leaf + "/";
    assert Parts(leaf + "/") == p + [""];
    CollapseAppend(dir, p, [""]);
    assert [""][1..] == [];
    assert !EndsWith(leaf, "/") && EndsWith(leaf + "/", "/");
  }

  lemma {:induction false} LastCharacter(p: Path)
    requires p != [] && Names(p) && SlashFree(p)
    ensures var s := Join(p, "/"); s != "" && s[|s| - 1] != '/'
  {
    assert p[0] in p && p[0] != "";
    if |p| > 1 {
      LastCharacter(p[1..]);
    } else {
      assert p[0][|p[0]| - 1] in p[0];
    }
  }
}
