/** The immutable manifest of a dry run and the plan hash that binds an apply to it. */
module Manifest {
  import opened Text
  import opened Filtering
  import opened Json
  import opened Sorting

  datatype PlanItem = PlanItem(path: string, bytes: nat, sha256: string, remote: string)

  /** A file of the manifest: its relative path and the digest of its contents. */
  type File = (string, string)

  datatype Target = Target(host: string, domain: string, remotePath: string)

  /** What does not enter the hash. */
  datatype Extras = Extras(packId: string, packVersion: string, recipeRef: string)

  datatype ManifestData = ManifestData(
    sourceSha256: string, files: seq<File>, deletes: seq<string>, target: Target, planHash: string,
    filesPlanned: nat, bytesTotal: nat, extras: Extras)

  function PathOf(f: File): string { f.0 }

  function Itself(s: string): string { s }

  function FileOf(item: PlanItem): File { (item.path, item.sha256) }

  function FilesOf(plan: seq<PlanItem>): seq<File> {
    seq(|plan|, i requires 0 <= i < |plan| => FileOf(plan[i]))
  }

  function FileValue(f: File): Value { ObjectOf([("path", f.0), ("sha256", f.1)]) }

  function FileValues(files: seq<File>): Value {
    List(seq(|files|, i requires 0 <= i < |files| => FileValue(files[i])))
  }

  function TextValues(texts: seq<string>): Value {
    List(seq(|texts|, i requires 0 <= i < |texts| => Text(texts[i])))
  }

  function TargetValue(t: Target): Value {
    ObjectOf([("host", t.host), ("domain", t.domain), ("remote_path", t.remotePath)])
  }

  /** `sha` is SHA-256 in hexadecimal. */
  function SourceTreeHash(sha: string -> string, files: seq<File>): string {
    sha(Print(FileValues(Sorted(files, PathOf))))
  }

  function HashBody(sha: string -> string, files: seq<File>, deletes: seq<string>, target: Target): Value {
    Object([
      Member("source_sha256", Text(SourceTreeHash(sha, files))),
      Member("files", FileValues(files)),
      Member("deletes", TextValues(deletes)),
      Member("target", TargetValue(target))])
  }

  function BytesTotal(plan: seq<PlanItem>): nat {
    if plan == [] then 0 else plan[0].bytes + BytesTotal(plan[1..])
  }

  /** The text that the plan hash is the digest of. */
  function HashText(sha: string -> string, plan: seq<PlanItem>, deletes: seq<string>, target: Target): string {
    Print(HashBody(sha, Sorted(FilesOf(plan), PathOf), Sorted(deletes, Itself), target))
  }

  function BuildManifest(
    sha: string -> string, plan: seq<PlanItem>, deletes: seq<string>, target: Target, extras: Extras): ManifestData
  {
    var files := Sorted(FilesOf(plan), PathOf);
    ManifestData(
      SourceTreeHash(sha, files), files, Sorted(deletes, Itself), target, sha(HashText(sha, plan, deletes, target)),
      |files|, BytesTotal(plan), extras)
  }

  /** The expected hash as it is compared: stripped, in lower case. */
  function Expected(hash: string): string { Lower(Strip(hash)) }

  /** True when the expected hash is that of the plan as it is now. */
  function VerifyPlanHash(
    sha: string -> string, plan: seq<PlanItem>, expectedPlanHash: string, deletes: seq<string>, target: Target): bool
  {
    var manifest := BuildManifest(sha, plan, deletes, target, Extras("", "", ""));
    var expected := Expected(expectedPlanHash);
    expected != "" && expected == manifest.planHash
  }

  // ----- the body determines what was planned -----

  lemma ObjectOfInjective(a: Pairs, b: Pairs)
    requires ObjectOf(a) == ObjectOf(b)
    ensures a == b
  {
    assert |a| == |ObjectOf(a).members| == |b|;
    forall i | 0 <= i < |a| ensures a[i] == b[i] {
      assert ObjectOf(a).members[i] == Member(a[i].0, Text(a[i].1));
      assert ObjectOf(b).members[i] == Member(b[i].0, Text(b[i].1));
    }
  }

  lemma FileValuesInjective(a: seq<File>, b: seq<File>)
    requires FileValues(a) == FileValues(b)
    ensures a == b
  {
    assert |a| == |FileValues(a).items| == |b|;
    forall i | 0 <= i < |a| ensures a[i] == b[i] {
      assert FileValues(a).items[i] == FileValue(a[i]) && FileValues(b).items[i] == FileValue(b[i]);
      var p, q := [("path", a[i].0), ("sha256", a[i].1)], [("path", b[i].0), ("sha256", b[i].1)];
      ObjectOfInjective(p, q);
      assert p[0] == q[0] && p[1] == q[1];
    }
  }

  lemma TextValuesInjective(a: seq<string>, b: seq<string>)
    requires TextValues(a) == TextValues(b)
    ensures a == b
  {
    assert |a| == |TextValues(a).items| == |b|;
    forall i | 0 <= i < |a| ensures a[i] == b[i] {
      assert TextValues(a).items[i] == Text(a[i]) && TextValues(b).items[i] == Text(b[i]);
    }
  }

  lemma TargetValueInjective(a: Target, b: Target)
    requires TargetValue(a) == TargetValue(b)
    ensures a == b
  {
    var p := [("host", a.host), ("domain", a.domain), ("remote_path", a.remotePath)];
    var q := [("host", b.host), ("domain", b.domain), ("remote_path", b.remotePath)];
    ObjectOfInjective(p, q);
    assert p[0] == q[0] && p[1] == q[1] && p[2] == q[2];
  }

  lemma HashTextInjective(
    sha: string -> string, f: seq<File>, g: seq<File>, d: seq<string>, e: seq<string>, s: Target, t: Target)
    requires Print(HashBody(sha, f, d, s)) == Print(HashBody(sha, g, e, t))
    ensures f == g && d == e && s == t
  {
    PrintInjective(HashBody(sha, f, d, s), HashBody(sha, g, e, t));
    var a, b := HashBody(sha, f, d, s).members, HashBody(sha, g, e, t).members;
    assert a[1] == b[1] && a[2] == b[2] && a[3] == b[3];
    FileValuesInjective(f, g);
    TextValuesInjective(d, e);
    TargetValueInjective(s, t);
  }

  // ----- the plan hash -----

  ghost predicate DistinctPaths(plan: seq<PlanItem>) {
    forall i, j | 0 <= i < j < |plan| :: plan[i].path != plan[j].path
  }

  ghost function FileSet(plan: seq<PlanItem>): set<File> {
    set i | 0 <= i < |plan| :: FileOf(plan[i])
  }

  /** Two plans for the same files, deletions and target. */
  ghost predicate SamePlan(
    p: seq<PlanItem>, q: seq<PlanItem>, d: seq<string>, e: seq<string>, s: Target, t: Target)
  {
    FileSet(p) == FileSet(q) && multiset(d) == multiset(e) && s == t
  }

  /** With distinct paths the files of a plan are a set. */
  lemma {:induction false} FilesCount(plan: seq<PlanItem>, f: File)
    requires DistinctPaths(plan)
    ensures multiset(FilesOf(plan))[f] == if f in FileSet(plan) then 1 else 0
  {
    if plan != [] {
      var rest := plan[1..];
      FilesCount(rest, f);
      assert FilesOf(plan) == [FileOf(plan[0])] + FilesOf(rest);
      assert f in FileSet(plan) <==> f == FileOf(plan[0]) || f in FileSet(rest) by {
        assert forall i | 0 < i < |plan| :: plan[i] == rest[i - 1];
        assert forall i | 0 <= i < |rest| :: rest[i] == plan[i + 1];
      }
      assert FileOf(plan[0]) !in FileSet(rest);
    }
  }

  lemma FilesApart(plan: seq<PlanItem>)
    requires DistinctPaths(plan)
    ensures KeyedApart(FilesOf(plan), PathOf)
  {
  }

  lemma SameFiles(p: seq<PlanItem>, q: seq<PlanItem>)
    requires DistinctPaths(p) && DistinctPaths(q)
    ensures FileSet(p) == FileSet(q) <==> Sorted(FilesOf(p), PathOf) == Sorted(FilesOf(q), PathOf)
  {
    FilesApart(p);
    SortedCanonical(FilesOf(p), FilesOf(q), PathOf);
    forall f ensures multiset(FilesOf(p))[f] == if f in FileSet(p) then 1 else 0 {
      FilesCount(p, f);
    }
    forall f ensures multiset(FilesOf(q))[f] == if f in FileSet(q) then 1 else 0 {
      FilesCount(q, f);
    }
    if multiset(FilesOf(p)) == multiset(FilesOf(q)) {
      assert forall f :: f in FileSet(p) <==> multiset(FilesOf(p))[f] == 1;
      assert forall f :: f in FileSet(q) <==> multiset(FilesOf(q))[f] == 1;
    }
  }

  /** The hash's text fixes the plan, and the order in which the plan was made does not matter. */
  lemma HashTextBindsPlan(
    sha: string -> string, p: seq<PlanItem>, q: seq<PlanItem>, d: seq<string>, e: seq<string>, s: Target, t: Target)
    requires DistinctPaths(p) && DistinctPaths(q)
    ensures HashText(sha, p, d, s) == HashText(sha, q, e, t) <==> SamePlan(p, q, d, e, s, t)
  {
    SameFiles(p, q);
    SortedCanonical(d, e, Itself);
    if HashText(sha, p, d, s) == HashText(sha, q, e, t) {
      HashTextInjective(sha, Sorted(FilesOf(p), PathOf), Sorted(FilesOf(q), PathOf),
                        Sorted(d, Itself), Sorted(e, Itself), s, t);
    }
  }

  /** A digest text: not blank, and unchanged by the normalisation of expected hashes. */
  ghost predicate DigestText(hash: string) { hash != "" && Expected(hash) == hash }

  /**
   * The plan of an apply passes the check against the hash of a dry run exactly when it is the plan of the
   * dry run: the same paths with the same digests, the same deletions, the same target. Order, sizes and
   * pack metadata play no part. Only a collision between the two texts could let another plan pass.
   */
  lemma PlanHashBinds(
    sha: string -> string, p: seq<PlanItem>, q: seq<PlanItem>, d: seq<string>, e: seq<string>, s: Target, t: Target,
    extras: Extras)
    requires DistinctPaths(p) && DistinctPaths(q)
    requires DigestText(BuildManifest(sha, q, e, t, extras).planHash)
    requires sha(HashText(sha, p, d, s)) == sha(HashText(sha, q, e, t)) ==>
               HashText(sha, p, d, s) == HashText(sha, q, e, t)
    ensures VerifyPlanHash(sha, p, BuildManifest(sha, q, e, t, extras).planHash, d, s)
       <==> SamePlan(p, q, d, e, s, t)
  {
    HashTextBindsPlan(sha, p, q, d, e, s, t);
  }

  // ----- plans that may list a path more than once -----

  /** The digests listed at a path, in order. */
  function DigestsAt(plan: seq<PlanItem>, path: string): seq<string> {
    if plan == [] then []
    else (if plan[0].path == path then [plan[0].sha256] else []) + DigestsAt(plan[1..], path)
  }

  function AtPath(path: string, digests: seq<string>): seq<File> {
    seq(|digests|, i requires 0 <= i < |digests| => (path, digests[i]))
  }

  lemma {:induction false} FilesAtPath(plan: seq<PlanItem>, path: string)
    ensures Filter(FilesOf(plan), KeyIs(PathOf, path)) == AtPath(path, DigestsAt(plan, path))
  {
    if plan != [] {
      FilesAtPath(plan[1..], path);
      assert FilesOf(plan) == [FileOf(plan[0])] + FilesOf(plan[1..]);
      FilterAppend([FileOf(plan[0])], FilesOf(plan[1..]), KeyIs(PathOf, path));
      FilterOne(FileOf(plan[0]), KeyIs(PathOf, path));
      AtPathAppend(path, if plan[0].path == path then [plan[0].sha256] else [], DigestsAt(plan[1..], path));
    }
  }

  lemma AtPathAppend(path: string, a: seq<string>, b: seq<string>)
    ensures AtPath(path, a + b) == AtPath(path, a) + AtPath(path, b)
    ensures |a| == 1 ==> AtPath(path, a) == [(path, a[0])]
  {
  }

  lemma AtPathInjective(path: string, a: seq<string>, b: seq<string>)
    requires AtPath(path, a) == AtPath(path, b)
    ensures a == b
  {
    assert |a| == |AtPath(path, a)| == |b|;
    forall i | 0 <= i < |a| ensures a[i] == b[i] {
      assert AtPath(path, a)[i] == AtPath(path, b)[i];
    }
  }

  ghost predicate SameDigests(p: seq<PlanItem>, q: seq<PlanItem>) {
    forall path :: DigestsAt(p, path) == DigestsAt(q, path)
  }

  /** The same digests at every path, in the same order there, with the same deletions and target. */
  ghost predicate SameListing(
    p: seq<PlanItem>, q: seq<PlanItem>, d: seq<string>, e: seq<string>, s: Target, t: Target)
  {
    SameDigests(p, q) && multiset(d) == multiset(e) && s == t
  }

  lemma SameAtPath(p: seq<PlanItem>, q: seq<PlanItem>, path: string)
    ensures Filter(FilesOf(p), KeyIs(PathOf, path)) == Filter(FilesOf(q), KeyIs(PathOf, path))
       <==> DigestsAt(p, path) == DigestsAt(q, path)
  {
    FilesAtPath(p, path);
    FilesAtPath(q, path);
    if AtPath(path, DigestsAt(p, path)) == AtPath(path, DigestsAt(q, path)) {
      AtPathInjective(path, DigestsAt(p, path), DigestsAt(q, path));
    }
  }

  lemma SameSortedFiles(p: seq<PlanItem>, q: seq<PlanItem>)
    ensures Sorted(FilesOf(p), PathOf) == Sorted(FilesOf(q), PathOf) <==> SameDigests(p, q)
  {
    SortedExactly(FilesOf(p), FilesOf(q), PathOf);
    if SameByKey(FilesOf(p), FilesOf(q), PathOf) {
      forall path ensures DigestsAt(p, path) == DigestsAt(q, path) {
        SameAtPath(p, q, path);
      }
    }
    if SameDigests(p, q) {
      forall path ensures Filter(FilesOf(p), KeyIs(PathOf, path)) == Filter(FilesOf(q), KeyIs(PathOf, path)) {
        SameAtPath(p, q, path);
      }
    }
  }

  /** For plans of any kind: what the hash's text fixes, and what it leaves open. */
  lemma HashTextExactly(
    sha: string -> string, p: seq<PlanItem>, q: seq<PlanItem>, d: seq<string>, e: seq<string>, s: Target, t: Target)
    ensures HashText(sha, p, d, s) == HashText(sha, q, e, t) <==> SameListing(p, q, d, e, s, t)
  {
    SameSortedFiles(p, q);
    SortedCanonical(d, e, Itself);
    if HashText(sha, p, d, s) == HashText(sha, q, e, t) {
      HashTextInjective(sha, Sorted(FilesOf(p), PathOf), Sorted(FilesOf(q), PathOf),
                        Sorted(d, Itself), Sorted(e, Itself), s, t);
    }
  }

  /** An apply passes against the hash of a dry run exactly when both list the same. */
  lemma PlanHashBindsListing(
    sha: string -> string, p: seq<PlanItem>, q: seq<PlanItem>, d: seq<string>, e: seq<string>, s: Target, t: Target,
    extras: Extras)
    requires DigestText(BuildManifest(sha, q, e, t, extras).planHash)
    requires sha(HashText(sha, p, d, s)) == sha(HashText(sha, q, e, t)) ==>
               HashText(sha, p, d, s) == HashText(sha, q, e, t)
    ensures VerifyPlanHash(sha, p, BuildManifest(sha, q, e, t, extras).planHash, d, s)
       <==> SameListing(p, q, d, e, s, t)
  {
    HashTextExactly(sha, p, q, d, e, s, t);
  }

  lemma SortedTwice(files: seq<File>)
    ensures Sorted(Sorted(files, PathOf), PathOf) == Sorted(files, PathOf)
  {
    forall k ensures Filter(Sorted(files, PathOf), KeyIs(PathOf, k)) == Filter(files, KeyIs(PathOf, k)) {
      SortedStable(files, PathOf, k);
    }
    SortedExactly(Sorted(files, PathOf), files, PathOf);
  }

  /**
   * The digest of the source that a manifest shows depends on the planned files and nothing else: it is the same
   * exactly when the same digests are listed at every path.
   */
  lemma SourceDigestExactly(
    sha: string -> string, p: seq<PlanItem>, q: seq<PlanItem>, d: seq<string>, e: seq<string>, s: Target, t: Target,
    x: Extras, y: Extras)
    requires var a, b := FileValues(Sorted(FilesOf(p), PathOf)), FileValues(Sorted(FilesOf(q), PathOf));
             sha(Print(a)) == sha(Print(b)) ==> Print(a) == Print(b)
    ensures BuildManifest(sha, p, d, s, x).sourceSha256 == BuildManifest(sha, q, e, t, y).sourceSha256
       <==> SameDigests(p, q)
  {
    SortedTwice(FilesOf(p));
    SortedTwice(FilesOf(q));
    SameSortedFiles(p, q);
    var a, b := Sorted(FilesOf(p), PathOf), Sorted(FilesOf(q), PathOf);
    if Print(FileValues(a)) == Print(FileValues(b)) {
      PrintInjective(FileValues(a), FileValues(b));
      FileValuesInjective(a, b);
    }
  }

  /** The hashed text is JSON that reads back as what the manifest shows, and nothing else. */
  lemma HashTextRead(sha: string -> string, plan: seq<PlanItem>, deletes: seq<string>, target: Target, extras: Extras)
    ensures var m := BuildManifest(sha, plan, deletes, target, extras);
      && m.planHash == sha(HashText(sha, plan, deletes, target))
      && Read(HashText(sha, plan, deletes, target)) == Some((Object([
           Member("source_sha256", Text(m.sourceSha256)), Member("files", FileValues(m.files)),
           Member("deletes", TextValues(m.deletes)), Member("target", TargetValue(m.target))]), ""))
      && multiset(m.files) == multiset(FilesOf(plan)) && multiset(m.deletes) == multiset(deletes)
      && m.target == target && m.filesPlanned == |plan|
  {
    SortedOrdered(FilesOf(plan), PathOf);
    SortedOrdered(deletes, Itself);
    var m, text := BuildManifest(sha, plan, deletes, target, extras), HashText(sha, plan, deletes, target);
    assert |multiset(m.files)| == |multiset(FilesOf(plan))|;
    ReadPrinted(HashBody(sha, m.files, m.deletes, target), "");
    assert text + "" == text;
  }

  lemma {:induction false} BytesTotalAdds(p: seq<PlanItem>, q: seq<PlanItem>, item: PlanItem)
    ensures BytesTotal(p + q) == BytesTotal(p) + BytesTotal(q) && BytesTotal([item]) == item.bytes
  {
    assert [item][1..] == [];
    if p == [] {
      assert p + q == q;
    } else {
      assert (p + q)[1..] == p[1..] + q;
      BytesTotalAdds(p[1..], q, item);
    }
  }

  lemma {:induction false} DigestsAppend(p: seq<PlanItem>, q: seq<PlanItem>, path: string)
    ensures DigestsAt(p + q, path) == DigestsAt(p, path) + DigestsAt(q, path)
  {
    if p == [] {
      assert p + q == q;
    } else {
      assert (p + q)[1..] == p[1..] + q;
      DigestsAppend(p[1..], q, path);
    }
  }

  /** Two files at one path with different digests hash differently in the two orders, wherever they stand. */
  lemma OrderMattersAtOnePath(
    sha: string -> string, before: seq<PlanItem>, x: PlanItem, y: PlanItem, after: seq<PlanItem>,
    d: seq<string>, t: Target)
    requires x.path == y.path && x.sha256 != y.sha256
    ensures HashText(sha, before + [x, y] + after, d, t) != HashText(sha, before + [y, x] + after, d, t)
  {
    var p, q, path := before + [x, y] + after, before + [y, x] + after, x.path;
    DigestsAppend(before + [x, y], after, path);
    DigestsAppend(before + [y, x], after, path);
    DigestsAppend(before, [x, y], path);
    DigestsAppend(before, [y, x], path);
    PairDigests(x, y);
    PairDigests(y, x);
    var n := |DigestsAt(before, path)|;
    assert DigestsAt(p, path)[n] == x.sha256 && DigestsAt(q, path)[n] == y.sha256;
    HashTextExactly(sha, p, q, d, d, t, t);
  }

  lemma PairDigests(x: PlanItem, y: PlanItem)
    requires x.path == y.path
    ensures DigestsAt([x, y], x.path) == [x.sha256, y.sha256]
  {
    assert [x, y][1..] == [y] && [y][1..] == [];
    assert DigestsAt([y], x.path) == [y.sha256];
  }
}
