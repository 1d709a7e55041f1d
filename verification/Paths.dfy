/** Absolute paths, as the scripts join, resolve and compare them. */
module Paths {
  import opened Text

  /** The names from the root down. */
  type Path = seq<string>

  predicate IsName(s: string) {
    s != "" && s != "." && s != ".." && '/' !in s
  }

  predicate IsPath(p: Path) {
    forall i :: 0 <= i < |p| ==> IsName(p[i])
  }

  /** A declared working directory: none, relative to the worktree, or absolute. */
  datatype Cwd = NoCwd | Relative(parts: seq<string>) | Absolute(parts: seq<string>)

  /** The parts of a path between slashes hold none themselves. */
  predicate IsCwd(c: Cwd) {
    c.NoCwd? || forall i :: 0 <= i < |c.parts| ==> '/' !in c.parts[i]
  }

  /** Follow the parts from `base`. */
  function Resolve(base: Path, parts: seq<string>): Path
    decreases |parts|
  {
    if parts == [] then base
    else
      var next := if parts[0] == "" || parts[0] == "." then base
                  else if parts[0] == ".." then (if base == [] then [] else base[..|base| - 1])
                  else base + [parts[0]];
      Resolve(next, parts[1..])
  }

  function Workdir(repo: Path, cwd: Cwd): Path {
    match cwd
    case NoCwd => repo
    case Relative(parts) => Resolve(repo, parts)
    case Absolute(parts) => Resolve([], parts)
  }

  /** One part at a time: an empty part or a dot stays, two dots go up, though not
      above the root, and a name goes down. */
  lemma {:induction false} ResolveLast(base: Path, parts: seq<string>, last: string)
    ensures Resolve(base, []) == base
    ensures var so := Resolve(base, parts);
            Resolve(base, parts + [last]) ==
            if last == "" || last == "." then so
            else if last == ".." then (if so == [] then [] else so[..|so| - 1])
            else so + [last]
    decreases |parts|
  {
    if parts == [] {
      assert parts + [last] == [last] && [last][1..] == [];
    } else {
      var next := if parts[0] == "" || parts[0] == "." then base
                  else if parts[0] == ".." then (if base == [] then [] else base[..|base| - 1])
                  else base + [parts[0]];
      assert (parts + [last])[1..] == parts[1..] + [last];
      ResolveLast(next, parts[1..], last);
    }
  }

  lemma {:induction false} ResolveIsPath(base: Path, parts: seq<string>)
    requires IsPath(base) && forall i :: 0 <= i < |parts| ==> '/' !in parts[i]
    ensures IsPath(Resolve(base, parts))
    decreases |parts|
  {
    if parts != [] {
      var next := if parts[0] == "" || parts[0] == "." then base
                  else if parts[0] == ".." then (if base == [] then [] else base[..|base| - 1])
                  else base + [parts[0]];
      ResolveIsPath(next, parts[1..]);
    }
  }

  lemma {:induction false} WorkdirIsPath(repo: Path, cwd: Cwd)
    requires IsPath(repo) && IsCwd(cwd)
    ensures IsPath(Workdir(repo, cwd))
  {
    match cwd
    case NoCwd =>
    case Relative(parts) => ResolveIsPath(repo, parts);
    case Absolute(parts) => ResolveIsPath([], parts);
  }

  /** The path as a string. */
  function PathText(p: Path): string {
    if p == [] then "/" else Slashed(p)
  }

  function Slashed(p: Path): string {
    if p == [] then "" else "/" + p[0] + Slashed(p[1..])
  }

  lemma {:induction false} NameThenSlash(name: string, rest: string)
    requires '/' !in name && (rest == "" || rest[0] == '/')
    ensures Components(name + rest) == [name] + Components(rest)[1..]
  {
    if name == "" {
      assert name + rest == rest;
    } else {
      assert (name + rest)[1..] == name[1..] + rest && (name + rest)[0] == name[0];
      NameThenSlash(name[1..], rest);
      assert [name[0]] + name[1..] == name;
    }
  }

  lemma {:induction false} SlashedReads(name: string, rest: string, names: seq<string>)
    requires '/' !in name && (rest == "" || rest[0] == '/') && Components(rest) == [""] + names
    ensures Components("/" + name + rest) == [""] + ([name] + names)
  {
    var s := "/" + name + rest;
    assert s[0] == '/' && s[1..] == name + rest;
    NameThenSlash(name, rest);
    assert Components(rest)[1..] == names;
  }

  /** The string reads back as the path. */
  lemma {:induction false} PathTextReads(p: Path)
    requires IsPath(p)
    ensures p != [] ==> Components(PathText(p)) == [""] + p
    ensures Components(Slashed(p)) == [""] + p
  {
    if p != [] {
      PathTextReads(p[1..]);
      SlashedReads(p[0], Slashed(p[1..]), p[1..]);
      assert Slashed(p) == "/" + p[0] + Slashed(p[1..]) && p == [p[0]] + p[1..];
    }
  }

  /** The test the scripts make: one string starts with the other. */
  predicate InsideByText(repo: Path, workdir: Path) {
    PathText(repo) <= PathText(workdir)
  }

  /** Outside the worktree. */
  predicate Escapes(repo: Path, workdir: Path) {
    !(repo <= workdir)
  }

  /** At or under a directory beside the worktree whose name extends the
      worktree's own. */
  predicate Beside(repo: Path, workdir: Path) {
    && 0 < |repo| <= |workdir| && repo[..|repo| - 1] == workdir[..|repo| - 1]
    && repo[|repo| - 1] < workdir[|repo| - 1]
  }

  // ---- string prefix against path prefix -----------------------------------

  /** Two names followed by nothing or a slash: one string starts with the other
      when the names are equal and the rests do, or when the first ends within
      the second name. */
  lemma {:induction false} NamePrefix(a: string, b: string, x: string, y: string)
    requires '/' !in a && '/' !in b && (x == "" || x[0] == '/') && (y == "" || y[0] == '/')
    ensures a + x <= b + y <==> (a == b && x <= y) || (x == "" && a < b)
  {
    var s, t := a + x, b + y;
    assert |a| < |b| && x != "" ==> s[|a|] == '/' && t[|a|] == b[|a|] && b[|a|] in b;
    assert |b| < |a| && y != "" ==> t[|b|] == '/' && s[|b|] == a[|b|] && a[|b|] in a;
    assert s[..|a|] == a && s[|a|..] == x && t[..|b|] == b && t[|b|..] == y;
    if a == b {
      assert s <= t <==> x <= y by {
        assert x <= y ==> t == s + y[|x|..];
        assert s <= t ==> y[..|x|] == t[|a|..|s|] == x;
      }
    } else if a < b {
      assert t[..|a|] == a;
    }
  }

  lemma {:induction false} AfterSlash(u: string, v: string)
    ensures "/" + u <= "/" + v <==> u <= v
  {
    assert ("/" + u)[1..] == u && ("/" + v)[1..] == v;
  }

  /** One name at a time. */
  lemma {:induction false} FirstName(repo: Path, workdir: Path)
    requires IsPath(repo) && IsPath(workdir) && repo != [] && workdir != []
    ensures Slashed(repo) <= Slashed(workdir) <==>
              || (repo[0] == workdir[0] && Slashed(repo[1..]) <= Slashed(workdir[1..]))
              || (|repo| == 1 && repo[0] < workdir[0])
  {
    var a, b, x, y := repo[0], workdir[0], Slashed(repo[1..]), Slashed(workdir[1..]);
    assert Slashed(repo) == "/" + (a + x) && Slashed(workdir) == "/" + (b + y);
    AfterSlash(a + x, b + y);
    NamePrefix(a, b, x, y);
  }

  lemma {:induction false} SlashedPrefix(repo: Path, workdir: Path)
    requires IsPath(repo) && IsPath(workdir) && repo != []
    ensures Slashed(repo) <= Slashed(workdir) <==> repo <= workdir || Beside(repo, workdir)
  {
    if workdir != [] {
      FirstName(repo, workdir);
      if |repo| > 1 {
        SlashedPrefix(repo[1..], workdir[1..]);
        SplitFirst(repo, workdir);
      }
    }
  }

  lemma {:induction false} SplitFirst(repo: Path, workdir: Path)
    requires |repo| > 1 && workdir != []
    ensures repo <= workdir <==> repo[0] == workdir[0] && repo[1..] <= workdir[1..]
    ensures Beside(repo, workdir) <==> repo[0] == workdir[0] && Beside(repo[1..], workdir[1..])
  {
    if |repo| <= |workdir| {
      var n := |repo| - 1;
      assert repo[..n] == [repo[0]] + repo[1..][..n - 1] && workdir[..n] == [workdir[0]] + workdir[1..][..n - 1];
    }
  }

  /** The string test lets through exactly what is inside, and what is beside. */
  lemma {:induction false} TextPrefixExactly(repo: Path, workdir: Path)
    requires IsPath(repo) && IsPath(workdir)
    ensures InsideByText(repo, workdir) <==> !Escapes(repo, workdir) || Beside(repo, workdir)
    ensures Beside(repo, workdir) ==> Escapes(repo, workdir)
  {
    if repo != [] {
      SlashedPrefix(repo, workdir);
    }
  }

  /** For every worktree but the root there is such a directory. */
  lemma {:induction false} SomethingIsBeside(repo: Path) returns (cwd: Cwd)
    requires IsPath(repo) && repo != []
    ensures IsCwd(cwd) && Escapes(repo, Workdir(repo, cwd)) && InsideByText(repo, Workdir(repo, cwd))
  {
    var name := repo[|repo| - 1] + "-x";
    cwd := Relative(["..", name]);
    var up := repo[..|repo| - 1];
    assert cwd.parts[1..] == [name] && [name][1..] == [];
    assert Resolve(repo, cwd.parts) == Resolve(up, [name]) == up + [name];
    WorkdirIsPath(repo, cwd);
    TextPrefixExactly(repo, up + [name]);
  }
}
