/** Planning a local tree and uploading it: three walks of one directory tree. */
module SiteTree {
  import opened Text
  import opened Utf8
  import opened Sorting
  import opened Manifest

  /** A directory: the contents of its files and its sub-directories, by name. */
  datatype Dir = Dir(files: map<string, seq<Byte>>, dirs: map<string, Dir>)

  /** The order in which a scan lists a set of names; two scans may list differently. */
  type Lister = set<string> -> seq<string>

  ghost predicate Lists(l: Lister) { forall s :: multiset(l(s)) == multiset(s) }

  /** What is left out: skipped names, and glob patterns on relative paths or base names. */
  datatype Rules = Rules(
    skipDirs: set<string>, skipFiles: set<string>, patterns: seq<string>, matches: (string, string) -> bool)

  const SKIP_DIRS := {".git", ".venv", "node_modules", "__pycache__", ".planfile", ".secrets",
                      ".idea", ".koru", ".ruff_cache", ".code2llm_cache"}
  const SKIP_FILES := {".DS_Store"}
  const DEFAULT_EXCLUDE := ["Dockerfile", "docker-compose.yml", "README.md", ".gitignore", "*.less",
                            "tree.sh", "deployment", "deployment/*", "staging-smoke", "staging-smoke/*"]

  function RulesFor(exclude: seq<string>, matches: (string, string) -> bool): Rules {
    Rules(SKIP_DIRS, SKIP_FILES, if exclude != [] then exclude else DEFAULT_EXCLUDE, matches)
  }

  predicate Excluded(r: Rules, path: string, base: string) {
    exists p | p in r.patterns :: r.matches(path, p) || r.matches(base, p)
  }

  function Join(names: seq<string>): string {
    if names == [] then ""
    else if |names| == 1 then names[0]
    else Join(names[..|names| - 1]) + "/" + names[|names| - 1]
  }

  predicate KeepsDir(r: Rules, name: string) { name !in r.skipDirs && !Excluded(r, name, name) }

  predicate KeepsFile(r: Rules, rel: seq<string>, name: string) {
    name !in r.skipFiles && !Excluded(r, Join(rel + [name]), name)
  }

  function Names(l: Lister, names: set<string>): seq<string> { Sorted(l(names), Itself) }

  // ----- the planned leaves, by recursion over the tree -----

  /** A file to deploy: the names on the way to it, and its contents. */
  datatype Leaf = Leaf(names: seq<string>, content: seq<Byte>)
  {
    function Path(): string { Join(names) }
  }

  function FileLeaves(r: Rules, files: map<string, seq<Byte>>, rel: seq<string>, names: seq<string>): seq<Leaf> {
    if names == [] then []
    else
      (if names[0] in files && KeepsFile(r, rel, names[0]) then [Leaf(rel + [names[0]], files[names[0]])] else [])
      + FileLeaves(r, files, rel, names[1..])
  }

  function Leaves(r: Rules, l: Lister, d: Dir, rel: seq<string>): seq<Leaf>
    decreases d, 1, 0
  {
    FileLeaves(r, d.files, rel, Names(l, d.files.Keys)) + DirLeaves(r, l, d, rel, Names(l, d.dirs.Keys))
  }

  function DirLeaves(r: Rules, l: Lister, d: Dir, rel: seq<string>, names: seq<string>): seq<Leaf>
    decreases d, 0, |names|
  {
    if names == [] then []
    else
      (if names[0] in d.dirs && KeepsDir(r, names[0]) then Leaves(r, l, d.dirs[names[0]], rel + [names[0]]) else [])
      + DirLeaves(r, l, d, rel, names[1..])
  }

  lemma NamesCanonical(l: Lister, k: Lister, names: set<string>)
    requires Lists(l) && Lists(k)
    ensures Names(l, names) == Names(k, names)
  {
    SortedCanonical(l(names), k(names), Itself);
  }

  /** The leaves and their order do not depend on the order in which directories are listed. */
  lemma {:induction false} LeavesCanonical(r: Rules, l: Lister, k: Lister, d: Dir, rel: seq<string>)
    requires Lists(l) && Lists(k)
    ensures Leaves(r, l, d, rel) == Leaves(r, k, d, rel)
    decreases d, 1, 0
  {
    NamesCanonical(l, k, d.files.Keys);
    NamesCanonical(l, k, d.dirs.Keys);
    DirLeavesCanonical(r, l, k, d, rel, Names(l, d.dirs.Keys));
  }

  lemma {:induction false} DirLeavesCanonical(
    r: Rules, l: Lister, k: Lister, d: Dir, rel: seq<string>, names: seq<string>)
    requires Lists(l) && Lists(k)
    ensures DirLeaves(r, l, d, rel, names) == DirLeaves(r, k, d, rel, names)
    decreases d, 0, |names|
  {
    if names != [] {
      if names[0] in d.dirs {
        LeavesCanonical(r, l, k, d.dirs[names[0]], rel + [names[0]]);
      }
      DirLeavesCanonical(r, l, k, d, rel, names[1..]);
    }
  }

  // ----- the walk, as the loops see it -----

  /** One step of a top-down walk: a directory's relative names and its files. */
  datatype Visit = Visit(rel: seq<string>, files: map<string, seq<Byte>>)

  function Walk(r: Rules, l: Lister, d: Dir, rel: seq<string>): seq<Visit>
    decreases d, 1, 0
  {
    [Visit(rel, d.files)] + WalkDirs(r, l, d, rel, Names(l, d.dirs.Keys))
  }

  function WalkDirs(r: Rules, l: Lister, d: Dir, rel: seq<string>, names: seq<string>): seq<Visit>
    decreases d, 0, |names|
  {
    if names == [] then []
    else
      (if names[0] in d.dirs && KeepsDir(r, names[0]) then Walk(r, l, d.dirs[names[0]], rel + [names[0]]) else [])
      + WalkDirs(r, l, d, rel, names[1..])
  }

  function VisitLeaves(r: Rules, l: Lister, v: Visit): seq<Leaf> {
    FileLeaves(r, v.files, v.rel, Names(l, v.files.Keys))
  }

  function AllLeaves(r: Rules, l: Lister, visits: seq<Visit>): seq<Leaf> {
    if visits == [] then [] else VisitLeaves(r, l, visits[0]) + AllLeaves(r, l, visits[1..])
  }

  lemma {:induction false} AllLeavesAppend(r: Rules, l: Lister, a: seq<Visit>, b: seq<Visit>)
    ensures AllLeaves(r, l, a + b) == AllLeaves(r, l, a) + AllLeaves(r, l, b)
  {
    if a == [] {
      assert a + b == b;
    } else {
      assert (a + b)[1..] == a[1..] + b;
      AllLeavesAppend(r, l, a[1..], b);
    }
  }

  /** A walk visits exactly the planned leaves, in order. */
  lemma {:induction false} WalkLeaves(r: Rules, l: Lister, d: Dir, rel: seq<string>)
    ensures AllLeaves(r, l, Walk(r, l, d, rel)) == Leaves(r, l, d, rel)
    decreases d, 1, 0
  {
    var here, below := Visit(rel, d.files), WalkDirs(r, l, d, rel, Names(l, d.dirs.Keys));
    WalkDirsLeaves(r, l, d, rel, Names(l, d.dirs.Keys));
    assert ([here] + below)[1..] == below;
  }

  lemma {:induction false} WalkDirsLeaves(r: Rules, l: Lister, d: Dir, rel: seq<string>, names: seq<string>)
    ensures AllLeaves(r, l, WalkDirs(r, l, d, rel, names)) == DirLeaves(r, l, d, rel, names)
    decreases d, 0, |names|
  {
    if names != [] {
      var first := if names[0] in d.dirs && KeepsDir(r, names[0])
                   then Walk(r, l, d.dirs[names[0]], rel + [names[0]]) else [];
      if names[0] in d.dirs {
        WalkLeaves(r, l, d.dirs[names[0]], rel + [names[0]]);
      }
      WalkDirsLeaves(r, l, d, rel, names[1..]);
      AllLeavesAppend(r, l, first, WalkDirs(r, l, d, rel, names[1..]));
    }
  }

  lemma {:induction false} FileLeavesAppend(
    r: Rules, files: map<string, seq<Byte>>, rel: seq<string>, a: seq<string>, b: seq<string>)
    ensures FileLeaves(r, files, rel, a + b) == FileLeaves(r, files, rel, a) + FileLeaves(r, files, rel, b)
  {
    if a == [] {
      assert a + b == b;
    } else {
      assert (a + b)[1..] == a[1..] + b;
      FileLeavesAppend(r, files, rel, a[1..], b);
    }
  }

  /** What file `j` of a visit adds. */
  lemma FileLeavesNext(r: Rules, v: Visit, names: seq<string>, j: nat)
    requires j < |names|
    ensures FileLeaves(r, v.files, v.rel, names[..j + 1]) == FileLeaves(r, v.files, v.rel, names[..j])
              + (if names[j] in v.files && KeepsFile(r, v.rel, names[j])
                 then [Leaf(v.rel + [names[j]], v.files[names[j]])] else [])
  {
    assert names[..j + 1] == names[..j] + [names[j]];
    FileLeavesAppend(r, v.files, v.rel, names[..j], [names[j]]);
    assert [names[j]][1..] == [];
  }

  lemma FileLeavesPrefix(r: Rules, v: Visit, names: seq<string>, j: nat)
    requires j <= |names|
    ensures FileLeaves(r, v.files, v.rel, names[..j]) <= FileLeaves(r, v.files, v.rel, names)
  {
    assert names == names[..j] + names[j..];
    FileLeavesAppend(r, v.files, v.rel, names[..j], names[j..]);
  }

  /** What visit `i` adds. */
  lemma AllLeavesNext(r: Rules, l: Lister, visits: seq<Visit>, i: nat)
    requires i < |visits|
    ensures AllLeaves(r, l, visits[..i + 1]) == AllLeaves(r, l, visits[..i]) + VisitLeaves(r, l, visits[i])
    ensures AllLeaves(r, l, visits[..i + 1]) <= AllLeaves(r, l, visits)
  {
    assert visits[..i + 1] == visits[..i] + [visits[i]];
    AllLeavesAppend(r, l, visits[..i], [visits[i]]);
    assert [visits[i]][1..] == [];
    assert visits == visits[..i + 1] + visits[i + 1..];
    AllLeavesAppend(r, l, visits[..i + 1], visits[i + 1..]);
  }

  // ----- the planner -----

  function ItemOf(sha: seq<Byte> -> string, remotePath: string, leaf: Leaf): PlanItem {
    PlanItem(leaf.Path(), |leaf.content|, sha(leaf.content), remotePath + "/" + leaf.Path())
  }

  function Items(sha: seq<Byte> -> string, remotePath: string, leaves: seq<Leaf>): seq<PlanItem> {
    seq(|leaves|, i requires 0 <= i < |leaves| => ItemOf(sha, remotePath, leaves[i]))
  }

  method PlanTree(r: Rules, l: Lister, d: Dir, remotePath: string, sha: seq<Byte> -> string)
    returns (planned: seq<PlanItem>)
    ensures planned == Items(sha, remotePath, Leaves(r, l, d, []))
  {
    planned := [];
    var visits := Walk(r, l, d, []);
    for i := 0 to |visits|
      invariant planned == Items(sha, remotePath, AllLeaves(r, l, visits[..i]))
    {
      var v := visits[i];
      var names := Names(l, v.files.Keys);
      ghost var before := AllLeaves(r, l, visits[..i]);
      for j := 0 to |names|
        invariant planned == Items(sha, remotePath, before + FileLeaves(r, v.files, v.rel, names[..j]))
      {
        FileLeavesNext(r, v, names, j);
        if names[j] in v.files && KeepsFile(r, v.rel, names[j]) {
          var content := v.files[names[j]];
          var rel := Join(v.rel + [names[j]]);
          planned := planned + [PlanItem(rel, |content|, sha(content), remotePath + "/" + rel)];
        }
      }
      AllLeavesNext(r, l, visits, i);
      assert names[..|names|] == names;
    }
    assert visits[..|visits|] == visits;
    WalkLeaves(r, l, d, []);
  }

  /** The planner with the exclusions of a request, or the default ones where it has none. */
  method PlanLocalTree(
    exclude: seq<string>, matches: (string, string) -> bool, l: Lister, d: Dir, remotePath: string,
    sha: seq<Byte> -> string)
    returns (planned: seq<PlanItem>)
    ensures planned == Items(sha, remotePath, Leaves(RulesFor(exclude, matches), l, d, []))
  {
    planned := PlanTree(RulesFor(exclude, matches), l, d, remotePath, sha);
  }
}
