/** The upload loops over SFTP and FTP, and how they follow the plan. */
module SiteUpload {
  import opened Text
  import opened Utf8
  import opened Sorting
  import opened Manifest
  import opened SiteTree

  // ----- remote paths -----

  function NonEmpty(parts: seq<string>): seq<string> {
    if parts == [] then [] else (if parts[0] != "" then [parts[0]] else []) + NonEmpty(parts[1..])
  }

  function Parts(path: string): seq<string> { NonEmpty(Split(path, '/')) }

  /** The absolute path that the cached directories are named by. */
  function PathOfParts(parts: seq<string>): string {
    if parts == [] then "" else PathOfParts(parts[..|parts| - 1]) + "/" + parts[|parts| - 1]
  }

  predicate GoodName(name: string) { name != "" && '/' !in name }

  lemma {:induction false} SplitLast(a: string, c: char, b: string)
    requires c !in b
    ensures Split(a + [c] + b, c) == Split(a, c) + [b]
  {
    var s := a + [c] + b;
    if a == "" {
      assert s[1..] == b;
      SplitWhole(b, c);
    } else {
      assert s[1..] == a[1..] + [c] + b;
      SplitLast(a[1..], c, b);
    }
  }

  lemma {:induction false} NonEmptyAppend(a: seq<string>, b: seq<string>)
    ensures NonEmpty(a + b) == NonEmpty(a) + NonEmpty(b)
  {
    if a == [] {
      assert a + b == b;
    } else {
      assert (a + b)[1..] == a[1..] + b;
      NonEmptyAppend(a[1..], b);
    }
  }

  /** A file's path has the parts of its directory and its name. */
  lemma PartsAppend(dir: string, name: string)
    requires GoodName(name)
    ensures Parts(dir + "/" + name) == Parts(dir) + [name]
  {
    SplitLast(dir, '/', name);
    NonEmptyAppend(Split(dir, '/'), [name]);
    assert [name][1..] == [];
  }

  lemma {:induction false} PiecesClean(s: string, c: char)
    ensures forall piece | piece in Split(s, c) :: c !in piece
  {
    if s != "" {
      PiecesClean(s[1..], c);
      var rest := Split(s[1..], c);
      assert rest[0] in rest && forall piece | piece in rest[1..] :: piece in rest;
    }
  }

  lemma {:induction false} NonEmptyIn(parts: seq<string>)
    ensures forall p :: p in NonEmpty(parts) <==> p in parts && p != ""
  {
    if parts != [] {
      NonEmptyIn(parts[1..]);
      assert parts == [parts[0]] + parts[1..];
    }
  }

  /** The parts of a remote path are proper names; slashes at its beginning make no difference. */
  lemma PartsGood(path: string)
    ensures forall name | name in Parts(path) :: GoodName(name)
    ensures Parts("/" + path) == Parts(path)
  {
    PiecesClean(path, '/');
    NonEmptyIn(Split(path, '/'));
    assert ("/" + path)[1..] == path && Split("/" + path, '/') == [""] + Split(path, '/');
    assert ([""] + Split(path, '/'))[1..] == Split(path, '/');
  }

  // ----- the SFTP session -----

  ghost predicate DirsExist(entries: set<string>, parts: seq<string>) {
    forall k | 0 < k <= |parts| :: PathOfParts(parts[..k]) in entries
  }

  /** Every directory above the file with these parts exists. */
  ghost predicate PlaceExists(entries: set<string>, parts: seq<string>) {
    parts != [] && DirsExist(entries, parts[..|parts| - 1])
  }

  lemma FilePlace(entries: set<string>, dir: string, name: string)
    requires GoodName(name) && DirsExist(entries, Parts(dir))
    ensures PlaceExists(entries, Parts(dir + "/" + name))
  {
    PartsAppend(dir, name);
    assert (Parts(dir) + [name])[..|Parts(dir)|] == Parts(dir);
  }

  class SftpSession {
    const refuses: string -> bool // the directories that the server will not make
    var entries: set<string>      // the directories known to the server, by absolute path
    ghost var log: seq<string>    // the targets of the transfers, in order

    constructor (initial: set<string>, refuses: string -> bool)
      ensures entries == initial && log == [] && this.refuses == refuses
    {
      this.refuses := refuses;
      entries := initial;
      log := [];
    }

    method Stat(path: string) returns (found: bool)
      ensures found <==> path in entries
    {
      found := path in entries;
    }

    /** A directory is made only where nothing exists, under a parent that does. */
    method Mkdir(path: string, ghost parts: seq<string>) returns (ok: bool)
      requires parts != [] && path == PathOfParts(parts) && path !in entries
      requires DirsExist(entries, parts[..|parts| - 1])
      modifies this
      ensures ok == !refuses(path) && log == old(log)
      ensures entries == if ok then old(entries) + {path} else old(entries)
    {
      ok := !refuses(path);
      if ok {
        entries := entries + {path};
      }
    }

    /** A file is put only where every directory above it exists. */
    method Put(remoteFile: string)
      requires PlaceExists(entries, Parts(remoteFile))
      modifies this`log
      ensures log == old(log) + [remoteFile]
    {
      log := log + [remoteFile];
    }
  }

  /** The cached paths of a directory and of everything above it. */
  ghost function Prefixes(parts: seq<string>): set<string> {
    if parts == [] then {} else Prefixes(parts[..|parts| - 1]) + {PathOfParts(parts)}
  }

  /** Some directory on the way to these parts is refused. */
  ghost predicate RefusedOn(refuses: string -> bool, parts: seq<string>) {
    exists k | 0 < k <= |parts| :: refuses(PathOfParts(parts[..k]))
  }

  /** Makes one directory, under a parent that exists, unless the cache or the server has it. */
  method SftpMkdir(sftp: SftpSession, path: string, made: set<string>, ghost parts: seq<string>)
    returns (cached: set<string>, ok: bool)
    requires made <= sftp.entries && parts != [] && path == PathOfParts(parts)
    requires DirsExist(sftp.entries, parts[..|parts| - 1])
    modifies sftp
    ensures ok ==> cached == made + {path} && sftp.entries == old(sftp.entries) + {path}
    ensures !ok ==> cached == made && sftp.entries == old(sftp.entries)
    ensures !ok ==> sftp.refuses(path) && path !in sftp.entries
    ensures sftp.log == old(sftp.log)
  {
    cached, ok := made, true;
    if path !in made {
      var found := sftp.Stat(path);
      if !found {
        ok := sftp.Mkdir(path, parts);
      }
      if ok {
        cached := made + {path};
      }
    }
  }

  /**
   * Makes a directory with everything above it. The cache stays sound: what it holds exists remotely; and
   * exactly the missing prefixes are created, up to the first that is refused.
   */
  method SftpMkdirs(sftp: SftpSession, remoteDir: string, made: set<string>) returns (cached: set<string>, ok: bool)
    requires made <= sftp.entries
    modifies sftp
    ensures made <= cached <= sftp.entries && cached <= made + Prefixes(Parts(remoteDir))
    ensures old(sftp.entries) <= sftp.entries <= old(sftp.entries) + Prefixes(Parts(remoteDir))
    ensures sftp.log == old(sftp.log)
    ensures ok ==> cached == made + Prefixes(Parts(remoteDir)) && DirsExist(sftp.entries, Parts(remoteDir))
    ensures ok ==> sftp.entries == old(sftp.entries) + Prefixes(Parts(remoteDir))
    ensures !ok ==> RefusedOn(sftp.refuses, Parts(remoteDir)) && !DirsExist(sftp.entries, Parts(remoteDir))
  {
    var parts := Parts(remoteDir);
    var path := "";
    cached, ok := made, true;
    for i := 0 to |parts|
      invariant ok && path == PathOfParts(parts[..i])
      invariant cached == made + Prefixes(parts[..i]) && cached <= sftp.entries
      invariant sftp.entries == old(sftp.entries) + Prefixes(parts[..i]) && sftp.log == old(sftp.log)
    {
      PrefixesNext(parts, i);
      PrefixesExist(sftp.entries, parts[..i]);
      path := path + "/" + parts[i];
      cached, ok := SftpMkdir(sftp, path, cached, parts[..i + 1]);
      if !ok {
        return;
      }
    }
    assert parts[..|parts|] == parts;
    PrefixesExist(sftp.entries, parts);
  }

  lemma PrefixesNext(parts: seq<string>, i: nat)
    requires i < |parts|
    ensures parts[..i + 1] != [] && parts[..i + 1][..i] == parts[..i]
    ensures PathOfParts(parts[..i + 1]) == PathOfParts(parts[..i]) + "/" + parts[i]
    ensures Prefixes(parts[..i + 1]) == Prefixes(parts[..i]) + {PathOfParts(parts[..i + 1])}
    ensures Prefixes(parts[..i]) <= Prefixes(parts)
  {
    assert parts[..i + 1][..i] == parts[..i];
    PrefixesWithin(parts, i);
  }

  lemma {:induction false} PrefixesWithin(parts: seq<string>, k: nat)
    requires k <= |parts|
    ensures Prefixes(parts[..k]) <= Prefixes(parts)
    decreases |parts|
  {
    if k == |parts| {
      assert parts[..k] == parts;
    } else {
      assert parts[..|parts| - 1][..k] == parts[..k];
      PrefixesWithin(parts[..|parts| - 1], k);
    }
  }

  lemma {:induction false} PrefixesExist(entries: set<string>, parts: seq<string>)
    requires Prefixes(parts) <= entries
    ensures DirsExist(entries, parts)
  {
    if parts != [] {
      var shorter := parts[..|parts| - 1];
      PrefixesExist(entries, shorter);
      assert forall k | 0 < k <= |shorter| :: shorter[..k] == parts[..k];
      assert parts[..|parts|] == parts;
    }
  }

  // ----- what an upload completes -----

  /**
   * What befalls a transfer: too late to start, an error, or bytes stored remotely; None where reading them back
   * raises an error.
   */
  datatype Transfer = Late | Broken(code: string) | Stored(data: Option<seq<Byte>>)

  datatype UploadError =
    | PartialUpload | TransferTimeout | Transport(code: string) | RemoteHashMismatch | ReadBackFailed | DirectoryRefused

  datatype Upload = Completed(paths: seq<string>) | Raised(error: UploadError, paths: seq<string>)

  /** The digest a plan has for a path; the last item counts, a missing one asks for nothing. */
  function PlannedSha(plan: seq<PlanItem>, path: string): string {
    if plan == [] then ""
    else if plan[|plan| - 1].path == path then plan[|plan| - 1].sha256
    else PlannedSha(plan[..|plan| - 1], path)
  }

  /** The remote digest check: none when it is off or the plan has no digest for the path. */
  datatype Check = Check(on: bool, plan: seq<PlanItem>, sha: seq<Byte> -> string)
  {
    predicate Applies(path: string) { on && PlannedSha(plan, path) != "" }

    /** What the check raises for a stored file, if anything. */
    function Objection(path: string, data: Option<seq<Byte>>): Option<UploadError> {
      if !Applies(path) then None
      else if data.None? then Some(ReadBackFailed)
      else if sha(data.value) != PlannedSha(plan, path) then Some(RemoteHashMismatch)
      else None
    }

    predicate Passes(path: string, data: Option<seq<Byte>>) { Objection(path, data).None? }
  }

  function Stop(done: nat, t: Transfer): UploadError
    requires !t.Stored?
  {
    if done > 0 then PartialUpload else if t.Late? then TransferTimeout else Transport(t.code)
  }

  /** From leaf `i` on: how many leaves are complete in the end, and the error that ends the upload. */
  function Outcome(check: Check, transfers: nat -> Transfer, leaves: seq<Leaf>, i: nat): (nat, Option<UploadError>)
    requires i <= |leaves|
    decreases |leaves| - i
  {
    if i == |leaves| then (i, None)
    else if !transfers(i).Stored? then (i, Some(Stop(i, transfers(i))))
    else if !check.Passes(leaves[i].Path(), transfers(i).data) then
      (i, check.Objection(leaves[i].Path(), transfers(i).data))
    else Outcome(check, transfers, leaves, i + 1)
  }

  function Paths(leaves: seq<Leaf>): seq<string> {
    seq(|leaves|, i requires 0 <= i < |leaves| => leaves[i].Path())
  }

  function Remotes(remotePath: string, leaves: seq<Leaf>): seq<string> {
    seq(|leaves|, i requires 0 <= i < |leaves| => remotePath + "/" + leaves[i].Path())
  }

  function UploadResult(check: Check, transfers: nat -> Transfer, leaves: seq<Leaf>): Upload {
    var (n, error) := Outcome(check, transfers, leaves, 0);
    if n > |leaves| || error.None? then Completed(Paths(leaves)) else Raised(error.value, Paths(leaves[..n]))
  }

  /**
   * The completed leaves are a prefix of the plan, the whole plan exactly on normal return. A transfer error
   * or a missed deadline is a partial upload exactly when that prefix is not empty.
   */
  lemma {:induction false} OutcomeExactly(check: Check, transfers: nat -> Transfer, leaves: seq<Leaf>, i: nat)
    requires i <= |leaves|
    ensures var (n, error) := Outcome(check, transfers, leaves, i);
      && i <= n <= |leaves|
      && (error.None? <==> n == |leaves|)
      && (forall k | i <= k < n :: transfers(k).Stored? && check.Passes(leaves[k].Path(), transfers(k).data))
      && (error == Some(PartialUpload) <==> n < |leaves| && !transfers(n).Stored? && n > 0)
      && (error.Some? && n < |leaves| && transfers(n).Stored? ==>
            error == check.Objection(leaves[n].Path(), transfers(n).data))
      && (error in {Some(RemoteHashMismatch), Some(ReadBackFailed)} <==>
            n < |leaves| && transfers(n).Stored? && !check.Passes(leaves[n].Path(), transfers(n).data))
    decreases |leaves| - i
  {
    if i < |leaves| && transfers(i).Stored? && check.Passes(leaves[i].Path(), transfers(i).data) {
      OutcomeExactly(check, transfers, leaves, i + 1);
    }
  }

  /** A transfer after which the upload goes on: stored, and if the check is on, read back with its planned digest. */
  predicate GoesThrough(check: Check, path: string, t: Transfer) {
    && t.Stored?
    && (check.on && PlannedSha(check.plan, path) != "" ==>
          t.data.Some? && check.sha(t.data.value) == PlannedSha(check.plan, path))
  }

  /** What ends an upload at its transfer number `n`. */
  function ErrorOf(n: nat, t: Transfer): UploadError {
    match t
    case Late => if n == 0 then TransferTimeout else PartialUpload
    case Broken(code) => if n == 0 then Transport(code) else PartialUpload
    case Stored(None) => ReadBackFailed
    case Stored(Some(_)) => RemoteHashMismatch
  }

  /**
   * The upload completes exactly when every transfer goes through. Otherwise the first one that does not ends it:
   * with its own error where nothing had been completed, as a partial upload after that, and with the check's
   * error where it was stored.
   */
  lemma UploadExactly(check: Check, transfers: nat -> Transfer, leaves: seq<Leaf>)
    ensures var result := UploadResult(check, transfers, leaves);
            var n := |result.paths|;
      && (result.Completed? <==>
            forall i | 0 <= i < |leaves| :: GoesThrough(check, leaves[i].Path(), transfers(i)))
      && (result.Raised? ==>
            && n < |leaves| && result.error == ErrorOf(n, transfers(n))
            && !GoesThrough(check, leaves[n].Path(), transfers(n))
            && forall i | 0 <= i < n :: GoesThrough(check, leaves[i].Path(), transfers(i)))
      && forall i | 0 <= i < n <= |leaves| :: result.paths[i] == leaves[i].Path()
  {
    UploadFrom(check, transfers, leaves, 0);
    OutcomeExactly(check, transfers, leaves, 0);
  }

  lemma {:induction false} UploadFrom(check: Check, transfers: nat -> Transfer, leaves: seq<Leaf>, i: nat)
    requires i <= |leaves|
    ensures var (n, error) := Outcome(check, transfers, leaves, i);
      && i <= n <= |leaves| && (error.None? <==> n == |leaves|)
      && (forall k | i <= k < n :: GoesThrough(check, leaves[k].Path(), transfers(k)))
      && (n < |leaves| ==>
            !GoesThrough(check, leaves[n].Path(), transfers(n)) && error == Some(ErrorOf(n, transfers(n))))
    decreases |leaves| - i
  {
    if i < |leaves| && GoesThrough(check, leaves[i].Path(), transfers(i)) {
      UploadFrom(check, transfers, leaves, i + 1);
    }
  }

  /** The planner's items and the upload of the same tree agree, however the two scans list directories. */
  lemma UploadFollowsPlan(
    r: Rules, l: Lister, k: Lister, d: Dir, remotePath: string, check: Check, transfers: nat -> Transfer)
    requires Lists(l) && Lists(k)
    ensures var plan := Items(check.sha, remotePath, Leaves(r, k, d, []));
            var leaves := Leaves(r, l, d, []);
            var n := Outcome(check, transfers, leaves, 0).0;
      && n <= |plan| == |leaves|
      && (forall i | 0 <= i < n :: UploadResult(check, transfers, leaves).paths[i] == plan[i].path)
      && |UploadResult(check, transfers, leaves).paths| == n
      && (UploadResult(check, transfers, leaves).Completed? <==> n == |plan|)
      && (forall i | 0 <= i < |plan| :: Remotes(remotePath, leaves)[i] == plan[i].remote)
  {
    LeavesCanonical(r, l, k, d, []);
    OutcomeExactly(check, transfers, Leaves(r, l, d, []), 0);
  }

  lemma {:induction false} PlannedShaAt(plan: seq<PlanItem>, i: nat)
    requires DistinctPaths(plan) && i < |plan|
    ensures PlannedSha(plan, plan[i].path) == plan[i].sha256
    decreases |plan|
  {
    if i + 1 < |plan| {
      assert forall k | 0 <= k < |plan| - 1 :: plan[..|plan| - 1][k] == plan[k];
      PlannedShaAt(plan[..|plan| - 1], i);
    }
  }

  /**
   * A completed upload under the remote check against its own plan has stored every planned file, readable, with
   * its planned digest.
   */
  lemma CheckedUploadIsStored(check: Check, transfers: nat -> Transfer, leaves: seq<Leaf>, remotePath: string)
    requires check.on && check.plan == Items(check.sha, remotePath, leaves) && DistinctPaths(check.plan)
    requires UploadResult(check, transfers, leaves).Completed?
    ensures forall i | 0 <= i < |leaves| && check.plan[i].sha256 != "" ::
      && transfers(i).Stored? && transfers(i).data.Some?
      && check.sha(transfers(i).data.value) == check.plan[i].sha256 == check.sha(leaves[i].content)
  {
    OutcomeExactly(check, transfers, leaves, 0);
    forall i | 0 <= i < |leaves| ensures PlannedSha(check.plan, leaves[i].Path()) == check.plan[i].sha256 {
      PlannedShaAt(check.plan, i);
    }
  }

  // ----- names -----

  ghost predicate WellNamed(d: Dir) {
    && (forall name | name in d.files :: GoodName(name))
    && (forall name | name in d.dirs :: GoodName(name) && WellNamed(d.dirs[name]))
  }

  ghost predicate WellNamedVisit(v: Visit) { forall name | name in v.files :: GoodName(name) }

  lemma {:induction false} WalkWellNamed(r: Rules, l: Lister, d: Dir, rel: seq<string>)
    requires WellNamed(d)
    ensures forall v | v in Walk(r, l, d, rel) :: WellNamedVisit(v)
    decreases d, 1, 0
  {
    WalkDirsWellNamed(r, l, d, rel, Names(l, d.dirs.Keys));
  }

  lemma {:induction false} WalkDirsWellNamed(r: Rules, l: Lister, d: Dir, rel: seq<string>, names: seq<string>)
    requires WellNamed(d)
    ensures forall v | v in WalkDirs(r, l, d, rel, names) :: WellNamedVisit(v)
    decreases d, 0, |names|
  {
    if names != [] {
      if names[0] in d.dirs {
        WalkWellNamed(r, l, d.dirs[names[0]], rel + [names[0]]);
      }
      WalkDirsWellNamed(r, l, d, rel, names[1..]);
    }
  }

  // ----- the upload loops -----

  function RemoteDir(remotePath: string, rel: seq<string>): string {
    if rel == [] then remotePath else remotePath + "/" + Join(rel)
  }

  lemma RemoteFile(remotePath: string, rel: seq<string>, name: string)
    ensures RemoteDir(remotePath, rel) + "/" + name == remotePath + "/" + Join(rel + [name])
  {
    if rel != [] {
      assert (rel + [name])[..|rel|] == rel;
    }
  }

  /** The loop has completed `met`, a prefix of the leaves, without an error so far. */
  ghost predicate Progress(
    check: Check, transfers: nat -> Transfer, leaves: seq<Leaf>, met: seq<Leaf>, uploaded: seq<string>)
  {
    && met <= leaves && uploaded == Paths(met)
    && Outcome(check, transfers, leaves, 0) == Outcome(check, transfers, leaves, |met|)
  }

  lemma NothingYet(check: Check, transfers: nat -> Transfer, leaves: seq<Leaf>)
    ensures Progress(check, transfers, leaves, [], [])
  {
  }

  lemma AllDone(check: Check, transfers: nat -> Transfer, leaves: seq<Leaf>, uploaded: seq<string>)
    requires Progress(check, transfers, leaves, leaves, uploaded)
    ensures UploadResult(check, transfers, leaves) == Completed(uploaded)
  {
  }

  /** What the next transfer makes of the outcome. */
  lemma StepOutcome(
    check: Check, transfers: nat -> Transfer, leaves: seq<Leaf>, met: seq<Leaf>, uploaded: seq<string>, leaf: Leaf)
    requires Progress(check, transfers, leaves, met, uploaded) && met + [leaf] <= leaves
    ensures var t := transfers(|uploaded|);
      && (!t.Stored? ==>
            UploadResult(check, transfers, leaves) == Raised(Stop(|uploaded|, t), uploaded))
      && (t.Stored? && !check.Passes(leaf.Path(), t.data) ==>
            UploadResult(check, transfers, leaves) == Raised(check.Objection(leaf.Path(), t.data).value, uploaded))
      && (t.Stored? && check.Passes(leaf.Path(), t.data) ==>
            Progress(check, transfers, leaves, met + [leaf], uploaded + [leaf.Path()]))
  {
    assert leaves[..|met|] == met && leaves[|met|] == leaf;
  }

  lemma RemotesNext(remotePath: string, met: seq<Leaf>, leaf: Leaf)
    ensures Remotes(remotePath, met + [leaf]) == Remotes(remotePath, met) + [remotePath + "/" + leaf.Path()]
  {
  }

  /** The targets transferred so far are those of at least the first `k` leaves, in order. */
  ghost predicate Transferred(log: seq<string>, start: seq<string>, remotePath: string, leaves: seq<Leaf>, k: nat) {
    exists n | k <= n <= |leaves| :: log == start + Remotes(remotePath, leaves[..n])
  }

  lemma TransferredMet(
    log: seq<string>, start: seq<string>, remotePath: string, leaves: seq<Leaf>, met: seq<Leaf>, k: nat)
    requires met <= leaves && k <= |met| && log == start + Remotes(remotePath, met)
    ensures Transferred(log, start, remotePath, leaves, k)
  {
    assert leaves[..|met|] == met;
  }

  /** One file over SFTP. */
  method SftpUploadFile(
    sftp: SftpSession, remoteDir: string, name: string, path: string, check: Check, transfers: nat -> Transfer,
    before: seq<string>, ghost remotePath: string, ghost leaves: seq<Leaf>, ghost met: seq<Leaf>, ghost leaf: Leaf,
    ghost start: seq<string>)
    returns (uploaded: seq<string>, error: Option<UploadError>)
    requires PlaceExists(sftp.entries, Parts(remoteDir + "/" + name))
    requires path == leaf.Path() && remoteDir + "/" + name == remotePath + "/" + path
    requires Progress(check, transfers, leaves, met, before) && met + [leaf] <= leaves
    requires sftp.log == start + Remotes(remotePath, met)
    modifies sftp`log
    ensures error.None? ==>
      && Progress(check, transfers, leaves, met + [leaf], uploaded)
      && sftp.log == start + Remotes(remotePath, met + [leaf])
    ensures error.Some? ==>
      && UploadResult(check, transfers, leaves) == Raised(error.value, uploaded)
      && Transferred(sftp.log, start, remotePath, leaves, |uploaded|)
  {
    uploaded, error := before, None;
    var t := transfers(|uploaded|);
    StepOutcome(check, transfers, leaves, met, uploaded, leaf);
    TransferredMet(sftp.log, start, remotePath, leaves, met, |uploaded|);
    if !t.Stored? {
      return uploaded, Some(Stop(|uploaded|, t));
    }
    RemotesNext(remotePath, met, leaf);
    sftp.Put(remoteDir + "/" + name);
    TransferredMet(sftp.log, start, remotePath, leaves, met + [leaf], |uploaded|);
    error := check.Objection(path, t.data);
    if error.Some? {
      return;
    }
    uploaded := uploaded + [path];
  }

  /** The files of one directory over SFTP; `met` are the leaves completed before, `start` the log at first. */
  method SftpUploadFiles(
    sftp: SftpSession, r: Rules, v: Visit, names: seq<string>, remotePath: string, check: Check,
    transfers: nat -> Transfer, before: seq<string>,
    ghost leaves: seq<Leaf>, ghost met: seq<Leaf>, ghost start: seq<string>)
    returns (uploaded: seq<string>, error: Option<UploadError>)
    requires WellNamedVisit(v) && DirsExist(sftp.entries, Parts(RemoteDir(remotePath, v.rel)))
    requires Progress(check, transfers, leaves, met, before)
    requires met + FileLeaves(r, v.files, v.rel, names) <= leaves
    requires sftp.log == start + Remotes(remotePath, met)
    modifies sftp`log
    ensures error.None? ==>
      var now := met + FileLeaves(r, v.files, v.rel, names);
      Progress(check, transfers, leaves, now, uploaded) && sftp.log == start + Remotes(remotePath, now)
    ensures error.Some? ==>
      && UploadResult(check, transfers, leaves) == Raised(error.value, uploaded)
      && Transferred(sftp.log, start, remotePath, leaves, |uploaded|)
  {
    uploaded, error := before, None;
    ghost var now := met;
    assert met + [] == met;
    for j := 0 to |names|
      invariant error.None?
      invariant now == met + FileLeaves(r, v.files, v.rel, names[..j])
      invariant Progress(check, transfers, leaves, now, uploaded) && sftp.log == start + Remotes(remotePath, now)
    {
      NextLeaf(r, v, names, j, met, leaves);
      if names[j] in v.files && KeepsFile(r, v.rel, names[j]) {
        ghost var leaf := Leaf(v.rel + [names[j]], v.files[names[j]]);
        RemoteFile(remotePath, v.rel, names[j]);
        FilePlace(sftp.entries, RemoteDir(remotePath, v.rel), names[j]);
        uploaded, error := SftpUploadFile(
          sftp, RemoteDir(remotePath, v.rel), names[j], Join(v.rel + [names[j]]), check, transfers, uploaded,
          remotePath, leaves, now, leaf, start);
        if error.Some? {
          return;
        }
        now := now + [leaf];
      }
    }
    assert names[..|names|] == names;
  }

  /** The leaves met up to file `j` and with it, while all of them are planned. */
  lemma NextLeaf(r: Rules, v: Visit, names: seq<string>, j: nat, met: seq<Leaf>, leaves: seq<Leaf>)
    requires j < |names| && met + FileLeaves(r, v.files, v.rel, names) <= leaves
    ensures var now := met + FileLeaves(r, v.files, v.rel, names[..j]);
            var next := met + FileLeaves(r, v.files, v.rel, names[..j + 1]);
      && next <= leaves
      && next == if names[j] in v.files && KeepsFile(r, v.rel, names[j])
                 then now + [Leaf(v.rel + [names[j]], v.files[names[j]])] else now
  {
    FileLeavesNext(r, v, names, j);
    FileLeavesPrefix(r, v, names, j + 1);
    var all, next := FileLeaves(r, v.files, v.rel, names), FileLeaves(r, v.files, v.rel, names[..j + 1]);
    assert all == next + all[|next|..];
  }

  /**
   * The upload broke off at the directory of visit `i`: everything before it is complete, without an error, and
   * nothing of it has been started.
   */
  ghost predicate BrokeOffAt(
    result: Upload, r: Rules, l: Lister, d: Dir, remotePath: string, check: Check, transfers: nat -> Transfer,
    refuses: string -> bool, i: nat)
  {
    var visits := Walk(r, l, d, []);
    && i < |visits| && RefusedOn(refuses, Parts(RemoteDir(remotePath, visits[i].rel)))
    && result == Raised(DirectoryRefused, Paths(AllLeaves(r, l, visits[..i])))
    && Progress(check, transfers, Leaves(r, l, d, []), AllLeaves(r, l, visits[..i]), result.paths)
  }

  /** A directory was refused, or the upload is the outcome over the planned leaves. */
  ghost predicate FollowsPlan(
    result: Upload, r: Rules, l: Lister, d: Dir, remotePath: string, check: Check, transfers: nat -> Transfer,
    refuses: string -> bool)
  {
    if result.Raised? && result.error.DirectoryRefused? then
      exists i :: BrokeOffAt(result, r, l, d, remotePath, check, transfers, refuses, i)
    else result == UploadResult(check, transfers, Leaves(r, l, d, []))
  }

  /** In every case the completed paths are a prefix of the plan's, not beyond the outcome over the leaves. */
  lemma CompletedIsPrefix(
    result: Upload, r: Rules, l: Lister, d: Dir, remotePath: string, check: Check, transfers: nat -> Transfer,
    refuses: string -> bool)
    requires FollowsPlan(result, r, l, d, remotePath, check, transfers, refuses)
    ensures result.paths <= Paths(Leaves(r, l, d, []))
    ensures |result.paths| <= Outcome(check, transfers, Leaves(r, l, d, []), 0).0
    ensures result.Completed? ==> result.paths == Paths(Leaves(r, l, d, []))
  {
    var leaves := Leaves(r, l, d, []);
    OutcomeExactly(check, transfers, leaves, 0);
    if result.Raised? && result.error.DirectoryRefused? {
      var i :| BrokeOffAt(result, r, l, d, remotePath, check, transfers, refuses, i);
      OutcomeExactly(check, transfers, leaves, |result.paths|);
    }
  }

  /**
   * The SFTP upload: what it completes is the outcome over the planned leaves, or breaks off at a directory that
   * is refused; what it has transferred at any moment went to the planned targets, in plan order.
   */
  method SftpUploadTree(
    sftp: SftpSession, r: Rules, l: Lister, d: Dir, remotePath: string, check: Check, transfers: nat -> Transfer)
    returns (result: Upload)
    requires WellNamed(d)
    modifies sftp
    ensures FollowsPlan(result, r, l, d, remotePath, check, transfers, sftp.refuses)
    ensures old(sftp.entries) <= sftp.entries
    ensures Transferred(sftp.log, old(sftp.log), remotePath, Leaves(r, l, d, []), |result.paths|)
  {
    ghost var leaves, start := Leaves(r, l, d, []), sftp.log;
    var made: set<string> := {};
    var uploaded: seq<string> := [];
    var visits := Walk(r, l, d, []);
    WalkLeaves(r, l, d, []);
    WalkWellNamed(r, l, d, []);
    NothingYet(check, transfers, leaves);
    assert Remotes(remotePath, []) == [];
    for i := 0 to |visits|
      invariant Progress(check, transfers, leaves, AllLeaves(r, l, visits[..i]), uploaded)
      invariant made <= sftp.entries && old(sftp.entries) <= sftp.entries
      invariant sftp.log == start + Remotes(remotePath, AllLeaves(r, l, visits[..i]))
    {
      var v := visits[i];
      var ok;
      made, ok := SftpMkdirs(sftp, RemoteDir(remotePath, v.rel), made);
      if !ok {
        TransferredMet(sftp.log, start, remotePath, leaves, AllLeaves(r, l, visits[..i]), |uploaded|);
        result := Raised(DirectoryRefused, uploaded);
        assert BrokeOffAt(result, r, l, d, remotePath, check, transfers, sftp.refuses, i);
        return;
      }
      AllLeavesNext(r, l, visits, i);
      var error;
      uploaded, error := SftpUploadFiles(
        sftp, r, v, Names(l, v.files.Keys), remotePath, check, transfers, uploaded,
        leaves, AllLeaves(r, l, visits[..i]), start);
      if error.Some? {
        ResultIsNoRefusal(check, transfers, leaves);
        return Raised(error.value, uploaded);
      }
    }
    assert visits[..|visits|] == visits;
    AllDone(check, transfers, leaves, uploaded);
    TransferredMet(sftp.log, start, remotePath, leaves, leaves, |uploaded|);
    result := Completed(uploaded);
  }

  /** The SFTP upload with the exclusions of a request, or the default ones where it has none. */
  method SftpUploadDir(
    sftp: SftpSession, exclude: seq<string>, matches: (string, string) -> bool, l: Lister, d: Dir, remotePath: string,
    check: Check, transfers: nat -> Transfer)
    returns (result: Upload)
    requires WellNamed(d)
    modifies sftp
    ensures FollowsPlan(result, RulesFor(exclude, matches), l, d, remotePath, check, transfers, sftp.refuses)
    ensures old(sftp.entries) <= sftp.entries
    ensures Transferred(
              sftp.log, old(sftp.log), remotePath, Leaves(RulesFor(exclude, matches), l, d, []), |result.paths|)
  {
    result := SftpUploadTree(sftp, RulesFor(exclude, matches), l, d, remotePath, check, transfers);
  }

  lemma {:induction false} OutcomeIsNoRefusal(check: Check, transfers: nat -> Transfer, leaves: seq<Leaf>, i: nat)
    requires i <= |leaves|
    ensures Outcome(check, transfers, leaves, i).1 != Some(DirectoryRefused)
    decreases |leaves| - i
  {
    if i < |leaves| && transfers(i).Stored? && check.Passes(leaves[i].Path(), transfers(i).data) {
      OutcomeIsNoRefusal(check, transfers, leaves, i + 1);
    }
  }

  lemma ResultIsNoRefusal(check: Check, transfers: nat -> Transfer, leaves: seq<Leaf>)
    ensures UploadResult(check, transfers, leaves).Raised? ==>
      !UploadResult(check, transfers, leaves).error.DirectoryRefused?
  {
    OutcomeIsNoRefusal(check, transfers, leaves, 0);
  }

  // ----- FTP -----

  /** The answer to `MKD`: a permanent refusal is taken to mean that the directory exists. */
  datatype MkdAnswer = Made | Permanent | OtherError

  function SetOf(s: seq<string>): set<string> { set path | path in s }

  class FtpSession {
    const answers: string -> MkdAnswer
    ghost var asked: seq<string> // the directories asked for, in order
    ghost var log: seq<string>   // the targets of the transfers, in order

    constructor (answers: string -> MkdAnswer)
      ensures this.answers == answers && asked == [] && log == []
    {
      this.answers := answers;
      asked, log := [], [];
    }

    method Mkd(path: string) returns (answer: MkdAnswer)
      modifies this`asked
      ensures answer == answers(path) && asked == old(asked) + [path]
    {
      answer := answers(path);
      asked := asked + [path];
    }

    /** A file is stored only once every directory above it has been asked for. */
    method Stor(remoteFile: string)
      requires PlaceExists(SetOf(asked), Parts(remoteFile))
      modifies this`log
      ensures log == old(log) + [remoteFile]
    {
      log := log + [remoteFile];
    }
  }

  ghost function Fails(answers: string -> MkdAnswer): string -> bool { path => answers(path).OtherError? }

  ghost predicate AllDistinct<T(!new)>(s: seq<T>) { forall i, j | 0 <= i < j < |s| :: s[i] != s[j] }

  /** Since `start` exactly the cached directories have been asked for, each once. */
  ghost predicate AskedOnce(asked: seq<string>, start: seq<string>, cached: set<string>) {
    && start <= asked && AllDistinct(asked[|start|..])
    && forall path :: path in cached <==> path in asked[|start|..]
  }

  lemma AskedNext(asked: seq<string>, start: seq<string>, cached: set<string>, path: string)
    requires AskedOnce(asked, start, cached) && path !in cached
    ensures AskedOnce(asked + [path], start, cached + {path})
  {
    assert (asked + [path])[|start|..] == asked[|start|..] + [path];
  }

  lemma AskedWithin(asked: seq<string>, start: seq<string>, cached: set<string>)
    requires AskedOnce(asked, start, cached)
    ensures forall path | path in cached :: path in asked
  {
  }

  /** Asks for a directory unless the cache holds it. */
  method FtpMkdir(ftp: FtpSession, path: string, made: set<string>, ghost start: seq<string>)
    returns (cached: set<string>, ok: bool)
    requires AskedOnce(ftp.asked, start, made)
    modifies ftp`asked
    ensures start <= ftp.asked && AllDistinct(ftp.asked[|start|..])
    ensures ok ==> AskedOnce(ftp.asked, start, cached) && cached == made + {path}
    ensures !ok ==> ftp.answers(path).OtherError?
  {
    cached, ok := made + {path}, true;
    if path in made {
      assert cached == made;
    } else {
      AskedNext(ftp.asked, start, made, path);
      var answer := ftp.Mkd(path);
      ok := !answer.OtherError?;
    }
  }

  /** Asks for a directory and everything above it, except what the cache holds. */
  method FtpMkdirs(ftp: FtpSession, remoteDir: string, made: set<string>, ghost start: seq<string>)
    returns (cached: set<string>, ok: bool)
    requires AskedOnce(ftp.asked, start, made)
    modifies ftp`asked
    ensures start <= ftp.asked && AllDistinct(ftp.asked[|start|..])
    ensures ok ==> AskedOnce(ftp.asked, start, cached) && cached == made + Prefixes(Parts(remoteDir))
    ensures !ok ==> RefusedOn(Fails(ftp.answers), Parts(remoteDir))
  {
    var parts := Parts(remoteDir);
    var path := "";
    cached, ok := made, true;
    for i := 0 to |parts|
      invariant ok && path == PathOfParts(parts[..i])
      invariant cached == made + Prefixes(parts[..i]) && AskedOnce(ftp.asked, start, cached)
    {
      PrefixesNext(parts, i);
      path := path + "/" + parts[i];
      cached, ok := FtpMkdir(ftp, path, cached, start);
      if !ok {
        assert Fails(ftp.answers)(PathOfParts(parts[..i + 1]));
        return;
      }
    }
    assert parts[..|parts|] == parts;
  }

  /** One file over FTP, which checks no remote digest. */
  method FtpUploadFile(
    ftp: FtpSession, remoteDir: string, name: string, path: string, transfers: nat -> Transfer, before: seq<string>,
    ghost remotePath: string, ghost check: Check, ghost leaves: seq<Leaf>, ghost met: seq<Leaf>, ghost leaf: Leaf,
    ghost start: seq<string>)
    returns (uploaded: seq<string>, error: Option<UploadError>)
    requires PlaceExists(SetOf(ftp.asked), Parts(remoteDir + "/" + name))
    requires path == leaf.Path() && remoteDir + "/" + name == remotePath + "/" + path
    requires !check.on && Progress(check, transfers, leaves, met, before) && met + [leaf] <= leaves
    requires ftp.log == start + Remotes(remotePath, met)
    modifies ftp`log
    ensures error.None? ==>
      && Progress(check, transfers, leaves, met + [leaf], uploaded)
      && ftp.log == start + Remotes(remotePath, met + [leaf])
    ensures error.Some? ==>
      && UploadResult(check, transfers, leaves) == Raised(error.value, uploaded)
      && uploaded == before && ftp.log == old(ftp.log)
  {
    uploaded, error := before, None;
    var t := transfers(|uploaded|);
    StepOutcome(check, transfers, leaves, met, uploaded, leaf);
    if !t.Stored? {
      return uploaded, Some(Stop(|uploaded|, t));
    }
    RemotesNext(remotePath, met, leaf);
    ftp.Stor(remoteDir + "/" + name);
    uploaded := uploaded + [path];
  }

  /** The files of one directory over FTP. */
  method FtpUploadFiles(
    ftp: FtpSession, r: Rules, v: Visit, names: seq<string>, remotePath: string, transfers: nat -> Transfer,
    before: seq<string>, ghost check: Check, ghost leaves: seq<Leaf>, ghost met: seq<Leaf>, ghost start: seq<string>)
    returns (uploaded: seq<string>, error: Option<UploadError>)
    requires WellNamedVisit(v) && DirsExist(SetOf(ftp.asked), Parts(RemoteDir(remotePath, v.rel)))
    requires !check.on && Progress(check, transfers, leaves, met, before)
    requires met + FileLeaves(r, v.files, v.rel, names) <= leaves
    requires ftp.log == start + Remotes(remotePath, met)
    modifies ftp`log
    ensures error.None? ==>
      var now := met + FileLeaves(r, v.files, v.rel, names);
      Progress(check, transfers, leaves, now, uploaded) && ftp.log == start + Remotes(remotePath, now)
    ensures error.Some? ==> UploadResult(check, transfers, leaves) == Raised(error.value, uploaded)
    ensures |uploaded| <= |leaves| && ftp.log == start + Remotes(remotePath, leaves[..|uploaded|])
  {
    uploaded, error := before, None;
    ghost var now := met;
    assert met + [] == met;
    for j := 0 to |names|
      invariant error.None?
      invariant now == met + FileLeaves(r, v.files, v.rel, names[..j])
      invariant Progress(check, transfers, leaves, now, uploaded) && ftp.log == start + Remotes(remotePath, now)
    {
      NextLeaf(r, v, names, j, met, leaves);
      assert leaves[..|now|] == now;
      if names[j] in v.files && KeepsFile(r, v.rel, names[j]) {
        ghost var leaf := Leaf(v.rel + [names[j]], v.files[names[j]]);
        RemoteFile(remotePath, v.rel, names[j]);
        FilePlace(SetOf(ftp.asked), RemoteDir(remotePath, v.rel), names[j]);
        uploaded, error := FtpUploadFile(
          ftp, RemoteDir(remotePath, v.rel), names[j], Join(v.rel + [names[j]]), transfers, uploaded,
          remotePath, check, leaves, now, leaf, start);
        if error.Some? {
          return;
        }
        now := now + [leaf];
      }
    }
    assert names[..|names|] == names && leaves[..|now|] == now;
  }

  lemma AskedPlace(asked: seq<string>, start: seq<string>, cached: set<string>, parts: seq<string>)
    requires AskedOnce(asked, start, cached) && Prefixes(parts) <= cached
    ensures DirsExist(SetOf(asked), parts)
  {
    AskedWithin(asked, start, cached);
    PrefixesExist(SetOf(asked), parts);
  }

  /** The FTP upload, as over SFTP; moreover no directory is asked for twice. */
  method FtpUploadTree(
    ftp: FtpSession, r: Rules, l: Lister, d: Dir, remotePath: string, transfers: nat -> Transfer,
    sha: seq<Byte> -> string)
    returns (result: Upload)
    requires WellNamed(d)
    modifies ftp
    ensures FollowsPlan(result, r, l, d, remotePath, Check(false, [], sha), transfers, Fails(ftp.answers))
    ensures var leaves := Leaves(r, l, d, []);
            |result.paths| <= |leaves| && ftp.log == old(ftp.log) + Remotes(remotePath, leaves[..|result.paths|])
    ensures old(ftp.asked) <= ftp.asked && AllDistinct(ftp.asked[|old(ftp.asked)|..])
  {
    ghost var check, leaves, start, first := Check(false, [], sha), Leaves(r, l, d, []), ftp.log, ftp.asked;
    var made: set<string> := {};
    var uploaded: seq<string> := [];
    var visits := Walk(r, l, d, []);
    WalkLeaves(r, l, d, []);
    WalkWellNamed(r, l, d, []);
    NothingYet(check, transfers, leaves);
    assert Remotes(remotePath, []) == [];
    for i := 0 to |visits|
      invariant Progress(check, transfers, leaves, AllLeaves(r, l, visits[..i]), uploaded)
      invariant ftp.log == start + Remotes(remotePath, AllLeaves(r, l, visits[..i]))
      invariant AskedOnce(ftp.asked, first, made)
    {
      var v := visits[i];
      ghost var met := AllLeaves(r, l, visits[..i]);
      assert leaves[..|met|] == met;
      var ok;
      made, ok := FtpMkdirs(ftp, RemoteDir(remotePath, v.rel), made, first);
      if !ok {
        result := Raised(DirectoryRefused, uploaded);
        assert BrokeOffAt(result, r, l, d, remotePath, check, transfers, Fails(ftp.answers), i);
        return;
      }
      AskedPlace(ftp.asked, first, made, Parts(RemoteDir(remotePath, v.rel)));
      AllLeavesNext(r, l, visits, i);
      var error;
      uploaded, error := FtpUploadFiles(
        ftp, r, v, Names(l, v.files.Keys), remotePath, transfers, uploaded, check, leaves, met, start);
      if error.Some? {
        ResultIsNoRefusal(check, transfers, leaves);
        return Raised(error.value, uploaded);
      }
    }
    assert visits[..|visits|] == visits && leaves[..|leaves|] == leaves;
    AllDone(check, transfers, leaves, uploaded);
    result := Completed(uploaded);
  }

  /** The FTP upload with the exclusions of a request, or the default ones where it has none. */
  method FtpUploadDir(
    ftp: FtpSession, exclude: seq<string>, matches: (string, string) -> bool, l: Lister, d: Dir, remotePath: string,
    transfers: nat -> Transfer, sha: seq<Byte> -> string)
    returns (result: Upload)
    requires WellNamed(d)
    modifies ftp
    ensures FollowsPlan(
              result, RulesFor(exclude, matches), l, d, remotePath, Check(false, [], sha), transfers,
              Fails(ftp.answers))
    ensures var leaves := Leaves(RulesFor(exclude, matches), l, d, []);
            |result.paths| <= |leaves| && ftp.log == old(ftp.log) + Remotes(remotePath, leaves[..|result.paths|])
    ensures old(ftp.asked) <= ftp.asked && AllDistinct(ftp.asked[|old(ftp.asked)|..])
  {
    result := FtpUploadTree(ftp, RulesFor(exclude, matches), l, d, remotePath, transfers, sha);
  }
}
