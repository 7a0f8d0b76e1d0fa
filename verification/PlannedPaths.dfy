/** The planner never plans one path twice, so a plan's files are a set that its hash can bind. */
module PlannedPaths {
  import opened Text
  import opened Utf8
  import opened Sorting
  import opened Manifest
  import opened SiteTree
  import opened SiteUpload

  /** Every name on a leaf's way is a file name proper, and the leaf lies below `rel`. */
  ghost predicate Below(leaf: Leaf, rel: seq<string>) {
    |rel| < |leaf.names| && leaf.names[..|rel|] == rel && forall n | n in leaf.names :: GoodName(n)
  }

  ghost predicate LeavesApart(leaves: seq<Leaf>) {
    forall i, j | 0 <= i < j < |leaves| :: leaves[i].names != leaves[j].names
  }

  lemma DistinctByCount(s: seq<string>, names: set<string>)
    requires multiset(s) == multiset(names)
    ensures AllDistinct(s)
  {
    forall i, j | 0 <= i < j < |s| ensures s[i] != s[j] {
      var before, after := s[..j], s[j + 1..];
      assert s == before + [s[j]] + after;
      assert before[i] == s[i];
      assert multiset(s)[s[j]] == multiset(before)[s[j]] + 1 + multiset(after)[s[j]];
      assert multiset(before)[s[i]] >= 1;
    }
  }

  lemma NamesDistinct(l: Lister, names: set<string>)
    requires Lists(l)
    ensures AllDistinct(Names(l, names)) && forall n :: n in Names(l, names) <==> n in names
  {
    var s := Names(l, names);
    SortedOrdered(l(names), Itself);
    DistinctByCount(s, names);
    forall n ensures n in s <==> n in names {
      assert n in s <==> n in multiset(s);
    }
  }

  lemma ApartAppend(a: seq<Leaf>, b: seq<Leaf>)
    requires LeavesApart(a) && LeavesApart(b)
    requires forall x, y | x in a && y in b :: x.names != y.names
    ensures LeavesApart(a + b)
  {
    var s := a + b;
    forall i, j | 0 <= i < j < |s| ensures s[i].names != s[j].names {
      if i < |a| <= j {
        assert s[i] in a && s[j] in b;
      }
    }
  }

  lemma {:induction false} FileLeavesApart(
    r: Rules, files: map<string, seq<Byte>>, rel: seq<string>, names: seq<string>)
    requires AllDistinct(names)
    ensures LeavesApart(FileLeaves(r, files, rel, names))
    ensures forall leaf | leaf in FileLeaves(r, files, rel, names) ::
      && |leaf.names| == |rel| + 1 && leaf.names[..|rel|] == rel
      && leaf.names[|rel|] in names && leaf.names[|rel|] in files
  {
    if names != [] {
      var rest := FileLeaves(r, files, rel, names[1..]);
      assert forall i, j | 0 <= i < j < |names[1..]| :: names[1..][i] == names[i + 1] && names[1..][j] == names[j + 1];
      FileLeavesApart(r, files, rel, names[1..]);
      assert forall n | n in names[1..] :: n in names && n != names[0];
      if names[0] in files && KeepsFile(r, rel, names[0]) {
        var leaf := Leaf(rel + [names[0]], files[names[0]]);
        assert leaf.names[|rel|] == names[0];
        ApartAppend([leaf], rest);
      }
    }
  }

  /** The leaves below `rel` have different names and lie properly below it. */
  lemma {:induction false} LeavesAreApart(r: Rules, l: Lister, d: Dir, rel: seq<string>)
    requires Lists(l) && WellNamed(d) && forall n | n in rel :: GoodName(n)
    ensures LeavesApart(Leaves(r, l, d, rel)) && forall leaf | leaf in Leaves(r, l, d, rel) :: Below(leaf, rel)
    decreases d, 1, 0
  {
    var files, dirs := Names(l, d.files.Keys), Names(l, d.dirs.Keys);
    NamesDistinct(l, d.files.Keys);
    NamesDistinct(l, d.dirs.Keys);
    FileLeavesBelow(r, d, rel, files);
    DirLeavesAreApart(r, l, d, rel, dirs);
    ApartAppend(FileLeaves(r, d.files, rel, files), DirLeaves(r, l, d, rel, dirs));
  }

  lemma FileLeavesBelow(r: Rules, d: Dir, rel: seq<string>, names: seq<string>)
    requires WellNamed(d) && AllDistinct(names) && forall n | n in rel :: GoodName(n)
    ensures LeavesApart(FileLeaves(r, d.files, rel, names))
    ensures forall leaf | leaf in FileLeaves(r, d.files, rel, names) :: Below(leaf, rel) && |leaf.names| == |rel| + 1
  {
    FileLeavesApart(r, d.files, rel, names);
    forall leaf | leaf in FileLeaves(r, d.files, rel, names) ensures Below(leaf, rel) {
      assert leaf.names == rel + [leaf.names[|rel|]];
    }
  }

  lemma {:induction false} DirLeavesAreApart(r: Rules, l: Lister, d: Dir, rel: seq<string>, names: seq<string>)
    requires Lists(l) && WellNamed(d) && AllDistinct(names) && forall n | n in rel :: GoodName(n)
    ensures LeavesApart(DirLeaves(r, l, d, rel, names))
    ensures forall leaf | leaf in DirLeaves(r, l, d, rel, names) ::
      Below(leaf, rel) && |leaf.names| > |rel| + 1 && leaf.names[|rel|] in names
    decreases d, 0, |names|
  {
    if names != [] {
      var rest := DirLeaves(r, l, d, rel, names[1..]);
      assert forall i, j | 0 <= i < j < |names[1..]| :: names[1..][i] == names[i + 1] && names[1..][j] == names[j + 1];
      DirLeavesAreApart(r, l, d, rel, names[1..]);
      assert forall n | n in names[1..] :: n in names && n != names[0];
      if names[0] in d.dirs && KeepsDir(r, names[0]) {
        var lower := rel + [names[0]];
        var first := Leaves(r, l, d.dirs[names[0]], lower);
        LeavesAreApart(r, l, d.dirs[names[0]], lower);
        forall leaf | leaf in first
          ensures Below(leaf, rel) && |leaf.names| > |rel| + 1 && leaf.names[|rel|] == names[0]
        {
          assert leaf.names[..|lower|][..|rel|] == leaf.names[..|rel|] && lower[..|rel|] == rel;
          assert leaf.names[..|lower|][|rel|] == names[0];
        }
        ApartAppend(first, rest);
      }
    }
  }

  /** A joined path splits back into its names. */
  lemma {:induction false} SplitJoin(names: seq<string>)
    requires names != [] && forall n | n in names :: GoodName(n)
    ensures Split(Join(names), '/') == names
  {
    assert names[|names| - 1] in names && GoodName(names[|names| - 1]);
    if |names| == 1 {
      SplitWhole(names[0], '/');
    } else {
      var init, last := names[..|names| - 1], names[|names| - 1];
      SplitJoin(init);
      SplitLast(Join(init), '/', last);
      assert init + [last] == names;
    }
  }

  lemma PlannedPathsDistinct(r: Rules, l: Lister, d: Dir, remotePath: string, sha: seq<Byte> -> string)
    requires Lists(l) && WellNamed(d)
    ensures DistinctPaths(Items(sha, remotePath, Leaves(r, l, d, [])))
  {
    var leaves := Leaves(r, l, d, []);
    LeavesAreApart(r, l, d, []);
    forall i, j | 0 <= i < j < |leaves| ensures leaves[i].Path() != leaves[j].Path() {
      assert Below(leaves[i], []) && Below(leaves[j], []);
      SplitJoin(leaves[i].names);
      SplitJoin(leaves[j].names);
    }
  }
}
