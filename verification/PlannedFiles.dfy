/** Which files of a tree are planned, with the exclusion rules written out. */
module PlannedFiles {
  import opened Text
  import opened Utf8
  import opened Manifest
  import opened SiteTree
  import opened PlannedPaths

  /** The contents of the file to which these names lead, if they lead to one. */
  function ContentAt(d: Dir, names: seq<string>): Option<seq<Byte>>
    decreases |names|
  {
    if names == [] then None
    else if |names| == 1 then (if names[0] in d.files then Some(d.files[names[0]]) else None)
    else if names[0] in d.dirs then ContentAt(d.dirs[names[0]], names[1..])
    else None
  }

  /** A directory of this name is entered. */
  ghost predicate Entered(r: Rules, name: string) {
    name !in r.skipDirs && forall p | p in r.patterns :: !r.matches(name, p)
  }

  /**
   * What the rules leave of a path below `rel`: every directory on the way is entered, the file's name is not
   * skipped, and no pattern matches its whole path or its name.
   */
  ghost predicate Allowed(r: Rules, rel: seq<string>, names: seq<string>) {
    && names != []
    && (forall i | 0 <= i < |names| - 1 :: Entered(r, names[i]))
    && names[|names| - 1] !in r.skipFiles
    && forall p | p in r.patterns :: !r.matches(Join(rel + names), p) && !r.matches(names[|names| - 1], p)
  }

  lemma FileAllowed(r: Rules, rel: seq<string>, name: string)
    ensures KeepsFile(r, rel, name) <==> Allowed(r, rel, [name])
  {
  }

  lemma AllowedBelow(r: Rules, rel: seq<string>, name: string, rest: seq<string>)
    requires rest != []
    ensures Allowed(r, rel, [name] + rest) <==> KeepsDir(r, name) && Allowed(r, rel + [name], rest)
  {
    var names := [name] + rest;
    assert rel + names == rel + [name] + rest;
    assert forall i | 0 <= i < |rest| :: names[i + 1] == rest[i];
    if Allowed(r, rel, names) {
      assert Entered(r, names[0]);
      forall i | 0 <= i < |rest| - 1 ensures Entered(r, rest[i]) {
        assert Entered(r, names[i + 1]);
      }
    }
  }

  lemma {:induction false} InFileLeaves(
    r: Rules, files: map<string, seq<Byte>>, rel: seq<string>, names: seq<string>, leaf: Leaf)
    ensures leaf in FileLeaves(r, files, rel, names)
       <==> exists name :: name in names && name in files && Allowed(r, rel, [name])
                           && leaf == Leaf(rel + [name], files[name])
  {
    if names != [] {
      InFileLeaves(r, files, rel, names[1..], leaf);
      FileAllowed(r, rel, names[0]);
      assert names == [names[0]] + names[1..];
    }
  }

  lemma {:induction false} InDirLeaves(r: Rules, l: Lister, d: Dir, rel: seq<string>, names: seq<string>, leaf: Leaf)
    ensures leaf in DirLeaves(r, l, d, rel, names)
       <==> exists name :: name in names && name in d.dirs && KeepsDir(r, name)
                           && leaf in Leaves(r, l, d.dirs[name], rel + [name])
  {
    if names != [] {
      InDirLeaves(r, l, d, rel, names[1..], leaf);
      assert names == [names[0]] + names[1..];
    }
  }

  /** The leaf lies below `rel`, holds what the tree holds there, and is allowed. */
  ghost predicate PlannedBelow(r: Rules, d: Dir, rel: seq<string>, leaf: Leaf) {
    && |rel| < |leaf.names| && leaf.names[..|rel|] == rel
    && ContentAt(d, leaf.names[|rel|..]) == Some(leaf.content) && Allowed(r, rel, leaf.names[|rel|..])
  }

  lemma {:induction false} LeavesBelow(r: Rules, l: Lister, d: Dir, rel: seq<string>, leaf: Leaf)
    requires Lists(l)
    ensures leaf in Leaves(r, l, d, rel) <==> PlannedBelow(r, d, rel, leaf)
    decreases d
  {
    var files, dirs := Names(l, d.files.Keys), Names(l, d.dirs.Keys);
    NamesDistinct(l, d.files.Keys);
    NamesDistinct(l, d.dirs.Keys);
    InFileLeaves(r, d.files, rel, files, leaf);
    InDirLeaves(r, l, d, rel, dirs, leaf);
    if leaf in FileLeaves(r, d.files, rel, files) {
      var name :| name in files && name in d.files && Allowed(r, rel, [name])
               && leaf == Leaf(rel + [name], d.files[name]);
      assert leaf.names[|rel|..] == [name];
    }
    if leaf in DirLeaves(r, l, d, rel, dirs) {
      var name :| name in dirs && name in d.dirs && KeepsDir(r, name)
               && leaf in Leaves(r, l, d.dirs[name], rel + [name]);
      LeavesBelow(r, l, d.dirs[name], rel + [name], leaf);
      StepDown(r, d, rel, name, leaf);
    }
    if PlannedBelow(r, d, rel, leaf) {
      var names := leaf.names[|rel|..];
      if |names| == 1 {
        assert names == [names[0]] && leaf.names == rel + [names[0]];
      } else {
        StepDown(r, d, rel, names[0], leaf);
        LeavesBelow(r, l, d.dirs[names[0]], rel + [names[0]], leaf);
      }
    }
  }

  lemma StepDown(r: Rules, d: Dir, rel: seq<string>, name: string, leaf: Leaf)
    requires name in d.dirs
    ensures PlannedBelow(r, d.dirs[name], rel + [name], leaf) && KeepsDir(r, name)
       <==> PlannedBelow(r, d, rel, leaf) && |leaf.names| > |rel| + 1 && leaf.names[|rel|] == name
  {
    if |leaf.names| > |rel| + 1 && leaf.names[..|rel|] == rel && leaf.names[|rel|] == name {
      var names, rest := leaf.names[|rel|..], leaf.names[|rel| + 1..];
      assert names == [name] + rest && leaf.names[..|rel| + 1] == rel + [name];
      AllowedBelow(r, rel, name, rest);
    }
  }

  /** A file is planned exactly if it is there and the rules allow its path. */
  lemma LeavesExactly(r: Rules, l: Lister, d: Dir, leaf: Leaf)
    requires Lists(l)
    ensures leaf in Leaves(r, l, d, [])
       <==> ContentAt(d, leaf.names) == Some(leaf.content) && Allowed(r, [], leaf.names)
  {
    LeavesBelow(r, l, d, [], leaf);
    assert leaf.names[0..] == leaf.names;
    assert leaf.names == [] ==> ContentAt(d, leaf.names) == None;
  }

  /**
   * The plan of a request holds an item exactly if it describes such a file: not below a skipped directory, not a
   * skipped file, and not matched by the request's exclusions, or by the default ones if it has none.
   */
  lemma PlannedExactly(
    exclude: seq<string>, matches: (string, string) -> bool, l: Lister, d: Dir, remotePath: string,
    sha: seq<Byte> -> string, item: PlanItem)
    requires Lists(l)
    ensures item in Items(sha, remotePath, Leaves(RulesFor(exclude, matches), l, d, []))
       <==> exists names: seq<string> ::
              && ContentAt(d, names).Some?
              && Allowed(
                   Rules(SKIP_DIRS, SKIP_FILES, if exclude == [] then DEFAULT_EXCLUDE else exclude, matches), [], names)
              && item == PlanItem(Join(names), |ContentAt(d, names).value|, sha(ContentAt(d, names).value),
                                  remotePath + "/" + Join(names))
  {
    var r := RulesFor(exclude, matches);
    PlannedByRules(r, l, d, remotePath, sha, item);
  }

  /** Nothing below a version control, environment, cache or secrets directory is planned, whatever is asked for. */
  lemma NeverPlanned(
    exclude: seq<string>, matches: (string, string) -> bool, l: Lister, d: Dir, leaf: Leaf, i: nat)
    requires Lists(l) && leaf in Leaves(RulesFor(exclude, matches), l, d, []) && i + 1 < |leaf.names|
    ensures leaf.names[i] !in {".git", ".venv", "node_modules", "__pycache__", ".planfile", ".secrets",
                               ".idea", ".koru", ".ruff_cache", ".code2llm_cache"}
    ensures leaf.names[|leaf.names| - 1] != ".DS_Store"
  {
    LeavesExactly(RulesFor(exclude, matches), l, d, leaf);
    assert Entered(RulesFor(exclude, matches), leaf.names[i]);
  }

  lemma PlannedByRules(
    r: Rules, l: Lister, d: Dir, remotePath: string, sha: seq<Byte> -> string, item: PlanItem)
    requires Lists(l)
    ensures item in Items(sha, remotePath, Leaves(r, l, d, []))
       <==> exists names: seq<string> ::
              && ContentAt(d, names).Some? && Allowed(r, [], names)
              && item == PlanItem(Join(names), |ContentAt(d, names).value|, sha(ContentAt(d, names).value),
                                  remotePath + "/" + Join(names))
  {
    var leaves := Leaves(r, l, d, []);
    var items := Items(sha, remotePath, leaves);
    if item in items {
      var i :| 0 <= i < |items| && items[i] == item;
      LeavesExactly(r, l, d, leaves[i]);
    }
    if names: seq<string> :|
      && ContentAt(d, names).Some? && Allowed(r, [], names)
      && item == PlanItem(Join(names), |ContentAt(d, names).value|, sha(ContentAt(d, names).value),
                          remotePath + "/" + Join(names))
    {
      var leaf := Leaf(names, ContentAt(d, names).value);
      LeavesExactly(r, l, d, leaf);
      var i :| 0 <= i < |leaves| && leaves[i] == leaf;
      assert items[i] == item;
    }
  }
}
