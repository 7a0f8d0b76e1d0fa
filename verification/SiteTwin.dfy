/** The digital twin: a plan materialised as a local release, and checked again later against the source. */
module SiteTwin {
  import opened Text
  import opened Utf8
  import opened Manifest
  import opened SiteTree
  import opened SiteUpload
  import opened PlannedPaths
  import R = ReleaseOps
  import ReleaseRuns

  /** The release marker; `builtAt` is the clock's reading. */
  datatype Meta = Meta(
    releaseId: string, artifactSha256: string, planHash: string, host: string, domain: string, packVersion: string,
    files: nat, builtAt: string)

  /**
   * The twin's fixed data, and what is taken from the library: SHA-256 of bytes and of texts, and the JSON
   * form of the marker.
   */
  datatype Twin = Twin(
    sha: seq<Byte> -> string, textSha: string -> string,
    dump: Meta -> seq<Byte>, load: seq<Byte> -> Option<Meta>,
    domain: string, remotePath: string, entrypoint: string, profileVersion: string, profileRef: string)

  datatype Failure =
    | PlanHashMismatch | SourceChanged | RemoteHashMismatch | EntrypointMissing | EntrypointHashMismatch
    | ReleaseNotFound | MetaInvalid | VerificationFailed | OsError | Activation(error: R.Error)

  datatype Outcome = Done(releaseId: string) | Failed(failure: Failure)

  const HOST := "plesk-twin.test"

  function TargetOf(t: Twin): Target { Target(HOST, t.domain, t.remotePath) }

  function PlanOf(t: Twin, r: Rules, l: Lister, d: Dir): seq<PlanItem> {
    Items(t.sha, t.remotePath, Leaves(r, l, d, []))
  }

  function ManifestOf(t: Twin, plan: seq<PlanItem>, extras: Extras): ManifestData {
    BuildManifest(t.textSha, plan, [], TargetOf(t), extras)
  }

  function TwinId(planHash: string): string { "rel_twin_" + (if |planHash| <= 16 then planHash else planHash[..16]) }

  function Stored(id: string, path: string): string { R.ReleaseDir(id) + "/" + path }

  function MetaFor(t: Twin, m: ManifestData, builtAt: string): Meta {
    Meta(TwinId(m.planHash), m.sourceSha256, m.planHash, HOST, t.domain, t.profileVersion, m.filesPlanned, builtAt)
  }

  /** The planned item of a path, if there is one. */
  function ItemAt(plan: seq<PlanItem>, path: string): Option<PlanItem> {
    if plan == [] then None else if plan[0].path == path then Some(plan[0]) else ItemAt(plan[1..], path)
  }

  function Bytes(fs: R.Fs, name: string): Option<seq<Byte>> {
    if name in fs && fs[name].File? then Some(fs[name].data) else None
  }

  /** The check of an uploaded release against its marker, before it is activated. */
  predicate ReleaseVerifies(plan: seq<PlanItem>, id: string, planHash: string, meta: Meta) {
    && meta.releaseId != "" && meta.releaseId == id
    && (planHash != "" && meta.planHash != "" ==> meta.planHash == planHash)
    && forall i | 0 <= i < |plan| :: plan[i].sha256 != ""
  }

  /** The planned files that are stored with their planned digests: the first `n`, except the marker's path. */
  ghost predicate FilesStored(t: Twin, fs: R.Fs, plan: seq<PlanItem>, n: nat, id: string)
    requires n <= |plan|
  {
    forall i | 0 <= i < n && plan[i].path != R.META ::
      var b := Bytes(fs, Stored(id, plan[i].path)); b.Some? && t.sha(b.value) == plan[i].sha256
  }

  ghost predicate EntrypointStored(t: Twin, fs: R.Fs, plan: seq<PlanItem>, id: string) {
    var b, item := Bytes(fs, Stored(id, t.entrypoint)), ItemAt(plan, t.entrypoint);
    b.Some? && item.Some? && t.sha(b.value) == item.value.sha256
  }

  /** What a successful synchronisation leaves in the twin. */
  ghost predicate Materialised(t: Twin, fs: R.Fs, plan: seq<PlanItem>, extras: Extras, builtAt: string) {
    var m := ManifestOf(t, plan, extras);
    var id := TwinId(m.planHash);
    && R.ReadState(fs).current == Some(id)
    && Bytes(fs, R.MetaPath(id)) == Some(t.dump(MetaFor(t, m, builtAt)))
    && FilesStored(t, fs, plan, |plan|, id)
    && EntrypointStored(t, fs, plan, id)
  }

  /** The marker of a materialised release says which plan it is of, and for which place. */
  lemma MarkerSays(t: Twin, fs: R.Fs, plan: seq<PlanItem>, extras: Extras, builtAt: string)
    requires Materialised(t, fs, plan, extras, builtAt)
    ensures var m := ManifestOf(t, plan, extras);
            var id := TwinId(m.planHash);
      Bytes(fs, R.MetaPath(id)) == Some(t.dump(
        Meta(id, m.sourceSha256, m.planHash, "plesk-twin.test", t.domain, t.profileVersion, |plan|, builtAt)))
  {
    HashTextRead(t.textSha, plan, [], TargetOf(t), extras);
  }

  lemma StoredInjective(id: string, a: string, b: string)
    ensures Stored(id, a) == Stored(id, b) ==> a == b
    ensures Stored(id, a) == R.MetaPath(id) <==> a == R.META
    ensures !ReleaseRuns.IsMark(Stored(id, a))
  {
    var n := |R.ReleaseDir(id)| + 1;
    assert Stored(id, a)[n..] == a && Stored(id, b)[n..] == b && R.MetaPath(id)[n..] == R.META;
    assert Stored(id, a)[0] == 'r' && R.CURRENT[0] == 'c' && R.PREVIOUS[0] == 'p';
    assert R.POINTER_CURRENT[0] == '.' && R.POINTER_PREVIOUS[0] == '.';
  }

  // ----- activation in a twin root of any shape -----

  ghost predicate SameBelow(fs: R.Fs, g: R.Fs) {
    forall name | !ReleaseRuns.IsMark(name) :: Bytes(fs, name) == Bytes(g, name)
  }

  ghost predicate OnMarks(ops: seq<R.FsOp>) { forall i | 0 <= i < |ops| :: ReleaseRuns.IsMark(ops[i].name) }

  lemma {:induction false} ExecOnMarks(fs: R.Fs, ops: seq<R.FsOp>)
    requires OnMarks(ops)
    ensures SameBelow(fs, R.Exec(R.Local, fs, ops).0)
    decreases |ops|
  {
    if ops != [] {
      var g := R.Do(R.Local, fs, ops[0]);
      if g.Some? {
        assert SameBelow(fs, g.value);
        assert forall i | 0 <= i < |ops[1..]| :: ops[1..][i] == ops[i + 1];
        ExecOnMarks(g.value, ops[1..]);
      }
    }
  }

  lemma PhaseOnMarks(fs: R.Fs, id: string, previous: Option<string>, phase: nat)
    ensures OnMarks(R.PhaseOps(R.Local, fs, id, previous, phase))
  {
  }

  lemma {:induction false} PhasesOnMarks(fs: R.Fs, id: string, previous: Option<string>, phase: nat)
    requires phase <= 4
    ensures SameBelow(fs, R.Phases(R.Local, fs, id, previous, phase).0)
    decreases 4 - phase
  {
    if phase < 4 {
      var ops := R.PhaseOps(R.Local, fs, id, previous, phase);
      PhaseOnMarks(fs, id, previous, phase);
      ExecOnMarks(fs, ops);
      var (g, ok) := R.Exec(R.Local, fs, ops);
      if ok {
        PhasesOnMarks(g, id, previous, phase + 1);
      }
    }
  }

  /** Replacing the link succeeds only by putting the new link in place. */
  lemma LinkReplaced(fs: R.Fs, target: string, name: string)
    ensures var (g, ok) := R.Exec(R.Local, fs, R.LinkOps(R.Local, fs, target, name));
            ok ==> name in g && g[name] == R.Link(target)
  {
    R.ExecTwo(R.Local, fs, R.Unlink(name), R.MakeLink(name, target));
    R.ExecOne(R.Local, fs, R.MakeLink(name, target));
    var g := R.Do(R.Local, fs, R.Unlink(name));
    if g.Some? {
      R.ExecOne(R.Local, g.value, R.MakeLink(name, target));
    }
  }

  lemma PointersCleared(fs: R.Fs, id: string, previous: Option<string>, phase: nat)
    requires phase == 2 || phase == 3
    ensures var (g, ok) := R.Exec(R.Local, fs, R.PhaseOps(R.Local, fs, id, previous, phase));
            R.CURRENT in fs ==> R.CURRENT in g && g[R.CURRENT] == fs[R.CURRENT]
  {
    ReleaseRuns.ReleaseDirIsNoMark("");
    var name := if phase == 2 then R.POINTER_CURRENT else R.POINTER_PREVIOUS;
    R.ExecOne(R.Local, fs, R.Remove(name));
  }

  lemma ActivationSetsCurrent(fs: R.Fs, id: string)
    requires R.ActivateRelease(R.Local, fs, id, R.Symlink).1.Activated?
    ensures var g := R.ActivateRelease(R.Local, fs, id, R.Symlink).0;
            SameBelow(fs, g) && R.ReadState(g).current == Some(id)
  {
    var previous := R.PreviousAfter(R.ReadState(fs), id);
    PhasesOnMarks(fs, id, previous, 0);
    var f1 := R.Exec(R.Local, fs, R.PhaseOps(R.Local, fs, id, previous, 0)).0;
    var f2 := R.Exec(R.Local, f1, R.PhaseOps(R.Local, f1, id, previous, 1)).0;
    var f3 := R.Exec(R.Local, f2, R.PhaseOps(R.Local, f2, id, previous, 2)).0;
    var f4 := R.Exec(R.Local, f3, R.PhaseOps(R.Local, f3, id, previous, 3)).0;
    FourPhases(fs, id, previous, f1, f2, f3, f4);
    LinkReplaced(f1, R.ReleaseDir(id), R.CURRENT);
    PointersCleared(f2, id, previous, 2);
    PointersCleared(f3, id, previous, 3);
    ReleaseRuns.LinkedIdOfRelease(f4, R.CURRENT, id);
  }

  lemma FourPhases(fs: R.Fs, id: string, previous: Option<string>, f1: R.Fs, f2: R.Fs, f3: R.Fs, f4: R.Fs)
    requires R.ViaSymlink(R.Local, fs, id, previous).1
    requires f1 == R.Exec(R.Local, fs, R.PhaseOps(R.Local, fs, id, previous, 0)).0
    requires f2 == R.Exec(R.Local, f1, R.PhaseOps(R.Local, f1, id, previous, 1)).0
    requires f3 == R.Exec(R.Local, f2, R.PhaseOps(R.Local, f2, id, previous, 2)).0
    requires f4 == R.Exec(R.Local, f3, R.PhaseOps(R.Local, f3, id, previous, 3)).0
    ensures R.ViaSymlink(R.Local, fs, id, previous).0 == f4
    ensures R.Exec(R.Local, f1, R.PhaseOps(R.Local, f1, id, previous, 1)).1
  {
    assert R.Phases(R.Local, fs, id, previous, 0) == R.Phases(R.Local, f1, id, previous, 1);
    assert R.Phases(R.Local, f1, id, previous, 1) == R.Phases(R.Local, f2, id, previous, 2);
    assert R.Phases(R.Local, f2, id, previous, 2) == R.Phases(R.Local, f3, id, previous, 3);
    assert R.Phases(R.Local, f3, id, previous, 3) == R.Phases(R.Local, f4, id, previous, 4);
  }

  // ----- what writing a release leaves alone -----

  /** Directories, links and the four marks are as before. */
  ghost predicate FrameKept(f: R.Fs, g: R.Fs) {
    && (forall name | name in f && !f[name].File? :: name in g && g[name] == f[name])
    && (forall name | ReleaseRuns.IsMark(name) :: name in f <==> name in g)
    && (forall name | ReleaseRuns.IsMark(name) && name in f :: g[name] == f[name])
  }

  ghost predicate StillWritable(f: R.Fs, g: R.Fs) { forall name | R.Writable(f, name) :: R.Writable(g, name) }

  lemma WritingKeeps(f: R.Fs, id: string, path: string, data: seq<Byte>)
    requires R.Writable(f, Stored(id, path))
    ensures var g := f[Stored(id, path) := R.File(data)]; FrameKept(f, g) && StillWritable(f, g)
  {
    StoredInjective(id, path, path);
  }

  lemma FrameTransitive(f: R.Fs, g: R.Fs, h: R.Fs)
    requires FrameKept(f, g) && FrameKept(g, h)
    ensures FrameKept(f, h)
  {
  }

  lemma RootKept(f: R.Fs, g: R.Fs, m: ReleaseRuns.Marks)
    requires ReleaseRuns.Root(f, m) && FrameKept(f, g)
    ensures ReleaseRuns.Root(g, m)
  {
    ReleaseRuns.ReleaseDirIsNoMark("");
  }

  ghost predicate AllWritable(fs: R.Fs, plan: seq<PlanItem>, id: string) {
    forall i | 0 <= i < |plan| :: R.Writable(fs, Stored(id, plan[i].path))
  }

  /** The source, read again, still has the planned digests. */
  ghost predicate RereadsAsPlanned(t: Twin, plan: seq<PlanItem>, reread: string -> Option<seq<Byte>>) {
    forall i | 0 <= i < |plan| :: reread(plan[i].path).Some? && t.sha(reread(plan[i].path).value) == plan[i].sha256
  }

  /** The file stored under this name is a planned one, with its planned digest. */
  ghost predicate WrittenAsPlanned(t: Twin, fs: R.Fs, plan: seq<PlanItem>, id: string, name: string) {
    exists i | 0 <= i < |plan| ::
      && name == Stored(id, plan[i].path)
      && Bytes(fs, name).Some? && t.sha(Bytes(fs, name).value) == plan[i].sha256
  }

  /** Nothing has been written but planned files, with their planned digests. */
  ghost predicate OnlyPlanned(t: Twin, f: R.Fs, g: R.Fs, plan: seq<PlanItem>, id: string) {
    forall name | Bytes(g, name) != Bytes(f, name) :: WrittenAsPlanned(t, g, plan, id, name)
  }

  lemma OnePlannedMore(t: Twin, f: R.Fs, g: R.Fs, plan: seq<PlanItem>, id: string, i: nat, data: seq<Byte>)
    requires OnlyPlanned(t, f, g, plan, id) && i < |plan| && t.sha(data) == plan[i].sha256
    ensures OnlyPlanned(t, f, g[Stored(id, plan[i].path) := R.File(data)], plan, id)
  {
    var h := g[Stored(id, plan[i].path) := R.File(data)];
    forall name | Bytes(h, name) != Bytes(f, name) ensures WrittenAsPlanned(t, h, plan, id, name) {
      if name != Stored(id, plan[i].path) {
        assert Bytes(h, name) == Bytes(g, name) && WrittenAsPlanned(t, g, plan, id, name);
      }
    }
  }

  // ----- synchronising the twin -----

  /** The first `i` files are copied, and nothing else has changed. */
  ghost predicate Copied(
    t: Twin, f: R.Fs, g: R.Fs, plan: seq<PlanItem>, i: nat, id: string, reread: string -> Option<seq<Byte>>)
  {
    && i <= |plan| && FilesStored(t, g, plan, i, id) && RereadsAsPlanned(t, plan[..i], reread)
    && FrameKept(f, g) && StillWritable(f, g) && OnlyPlanned(t, f, g, plan, id)
  }

  lemma OneCopied(
    t: Twin, f: R.Fs, g: R.Fs, plan: seq<PlanItem>, i: nat, id: string, reread: string -> Option<seq<Byte>>,
    data: seq<Byte>)
    requires DistinctPaths(plan) && Copied(t, f, g, plan, i, id, reread) && i < |plan|
    requires reread(plan[i].path) == Some(data) && t.sha(data) == plan[i].sha256
    requires R.Writable(g, Stored(id, plan[i].path))
    ensures Copied(t, f, g[Stored(id, plan[i].path) := R.File(data)], plan, i + 1, id, reread)
  {
    var h := g[Stored(id, plan[i].path) := R.File(data)];
    WritingKeeps(g, id, plan[i].path, data);
    OnePlannedMore(t, f, g, plan, id, i, data);
    FrameTransitive(f, g, h);
    forall j | 0 <= j < i && plan[j].path != R.META
      ensures Bytes(h, Stored(id, plan[j].path)) == Bytes(g, Stored(id, plan[j].path))
    {
      StoredInjective(id, plan[j].path, plan[i].path);
    }
    assert plan[..i + 1] == plan[..i] + [plan[i]];
  }

  lemma NoneCopied(t: Twin, f: R.Fs, plan: seq<PlanItem>, id: string, reread: string -> Option<seq<Byte>>)
    ensures Copied(t, f, f, plan, 0, id, reread)
  {
  }

  lemma AllCopied(
    t: Twin, f: R.Fs, g: R.Fs, plan: seq<PlanItem>, id: string, reread: string -> Option<seq<Byte>>)
    requires Copied(t, f, g, plan, |plan|, id, reread)
    ensures FilesStored(t, g, plan, |plan|, id) && RereadsAsPlanned(t, plan, reread)
  {
    assert plan[..|plan|] == plan;
  }

  /** Copies the planned files; `reread` is the source as it is now. */
  method CopyFiles(
    t: Twin, fs: R.ReleaseFs, plan: seq<PlanItem>, id: string, reread: string -> Option<seq<Byte>>)
    returns (failure: Option<Failure>)
    requires DistinctPaths(plan)
    modifies fs
    ensures failure.None? ==> FilesStored(t, fs.entries, plan, |plan|, id)
    ensures FrameKept(old(fs.entries), fs.entries) && StillWritable(old(fs.entries), fs.entries)
    ensures failure != Some(PlanHashMismatch) && OnlyPlanned(t, old(fs.entries), fs.entries, plan, id)
    ensures AllWritable(old(fs.entries), plan, id) ==> (failure.None? <==> RereadsAsPlanned(t, plan, reread))
  {
    failure := None;
    NoneCopied(t, fs.entries, plan, id, reread);
    for i := 0 to |plan|
      invariant Copied(t, old(fs.entries), fs.entries, plan, i, id, reread)
    {
      var item := plan[i];
      var content := reread(item.path);
      if content.None? {
        return Some(OsError);
      }
      if t.sha(content.value) != item.sha256 {
        return Some(SourceChanged);
      }
      ghost var before := fs.entries;
      var ok := fs.WriteBytes(Stored(id, item.path), content.value);
      if !ok {
        return Some(OsError);
      }
      OneCopied(t, old(fs.entries), before, plan, i, id, reread, content.value);
      var written := Bytes(fs.entries, Stored(id, item.path));
      if written.None? || t.sha(written.value) != item.sha256 {
        return Some(Failure.RemoteHashMismatch);
      }
    }
    AllCopied(t, old(fs.entries), fs.entries, plan, id, reread);
  }

  /** The entrypoint is planned; if it is the marker's own path, the marker happens to have its digest. */
  ghost predicate EntrypointFits(t: Twin, plan: seq<PlanItem>, meta: Meta) {
    var item := ItemAt(plan, t.entrypoint);
    item.Some? && (t.entrypoint == R.META ==> t.sha(t.dump(meta)) == item.value.sha256)
  }

  ghost predicate HasDigests(plan: seq<PlanItem>) { forall i | 0 <= i < |plan| :: plan[i].sha256 != "" }

  /** Nothing in the twin's root is in the way of a release: of its directory, its marker, or its activation. */
  ghost predicate RoomFor(fs: R.Fs, id: string) {
    R.Writable(fs, R.MetaPath(id)) && ReleaseRuns.Released(fs, id) && exists m :: ReleaseRuns.Root(fs, m)
  }

  /** Writes the marker and activates the release once it verifies. */
  method Publish(t: Twin, fs: R.ReleaseFs, plan: seq<PlanItem>, extras: Extras, builtAt: string)
    returns (outcome: Outcome)
    requires fs.host == R.Local && DistinctPaths(plan)
    requires FilesStored(t, fs.entries, plan, |plan|, TwinId(ManifestOf(t, plan, extras).planHash))
    modifies fs
    ensures outcome.Done? ==>
      && Materialised(t, fs.entries, plan, extras, builtAt)
      && outcome.releaseId == TwinId(ManifestOf(t, plan, extras).planHash)
    ensures outcome != Failed(PlanHashMismatch)
    ensures var m := ManifestOf(t, plan, extras);
      RoomFor(old(fs.entries), TwinId(m.planHash)) ==>
        (outcome.Done? <==> HasDigests(plan) && EntrypointFits(t, plan, MetaFor(t, m, builtAt)))
  {
    var m := ManifestOf(t, plan, extras);
    var id := TwinId(m.planHash);
    var meta := MetaFor(t, m, builtAt);
    ghost var copied := fs.entries;
    var ok := fs.WriteBytes(R.MetaPath(id), t.dump(meta));
    if !ok {
      return Failed(OsError);
    }
    MarkerKeeps(copied, id, t.dump(meta));
    forall i | 0 <= i < |plan| && plan[i].path != R.META
      ensures Bytes(fs.entries, Stored(id, plan[i].path)) == Bytes(copied, Stored(id, plan[i].path))
    {
      StoredInjective(id, plan[i].path, R.META);
    }
    EntrypointReads(t, fs.entries, plan, id, meta);
    if !ReleaseVerifies(plan, id, m.planHash, meta) {
      return Failed(Failure.RemoteHashMismatch);
    }
    var content, item := Bytes(fs.entries, Stored(id, t.entrypoint)), ItemAt(plan, t.entrypoint);
    if content.None? {
      return Failed(EntrypointMissing);
    }
    if item.None? || t.sha(content.value) != item.value.sha256 {
      return Failed(EntrypointHashMismatch);
    }
    ghost var written := fs.entries;
    CanActivate(copied, written, id);
    var reply := fs.Activate(id, R.Symlink);
    if reply.Failed? {
      return Failed(Activation(reply.error));
    }
    ActivationSetsCurrent(written, id);
    StoredInjective(id, t.entrypoint, R.META);
    StoredInjective(id, R.META, R.META);
    forall i | 0 <= i < |plan|
      ensures Bytes(fs.entries, Stored(id, plan[i].path)) == Bytes(written, Stored(id, plan[i].path))
    {
      StoredInjective(id, plan[i].path, R.META);
    }
    return Done(id);
  }

  lemma MarkerKeeps(f: R.Fs, id: string, data: seq<Byte>)
    requires R.Writable(f, R.MetaPath(id))
    ensures FrameKept(f, f[R.MetaPath(id) := R.File(data)])
  {
    StoredInjective(id, R.META, R.META);
    WritingKeeps(f, id, R.META, data);
  }

  lemma CanActivate(f: R.Fs, g: R.Fs, id: string)
    requires FrameKept(f, g)
    ensures RoomFor(f, id) ==> R.ActivateRelease(R.Local, g, id, R.Symlink).1.Activated?
  {
    if RoomFor(f, id) {
      var m :| ReleaseRuns.Root(f, m);
      RootKept(f, g, m);
      ReleaseRuns.SymlinkActivation(R.Local, g, m, id, R.Symlink);
    }
  }

  /** Once files and marker are stored, the entrypoint reads with its planned digest exactly if it fits. */
  lemma EntrypointReads(t: Twin, fs: R.Fs, plan: seq<PlanItem>, id: string, meta: Meta)
    requires FilesStored(t, fs, plan, |plan|, id) && Bytes(fs, R.MetaPath(id)) == Some(t.dump(meta))
    ensures EntrypointStored(t, fs, plan, id) <==> EntrypointFits(t, plan, meta)
  {
    StoredInjective(id, t.entrypoint, R.META);
    ItemAtFound(plan, t.entrypoint);
    var item := ItemAt(plan, t.entrypoint);
    if item.Some? && t.entrypoint != R.META {
      var i :| 0 <= i < |plan| && plan[i] == item.value;
    }
  }

  /** Nothing is in the way of materialising this plan: the paths can be written, and the release can be activated. */
  ghost predicate ReadyFor(fs: R.Fs, plan: seq<PlanItem>, id: string) {
    && R.ValidId(id) && (R.ReleaseDir(id) in fs ==> fs[R.ReleaseDir(id)].Directory?)
    && AllWritable(fs, plan, id) && R.Writable(fs, R.MetaPath(id)) && exists m :: ReleaseRuns.Root(fs, m)
  }

  lemma MadeReady(f: R.Fs, plan: seq<PlanItem>, id: string)
    requires ReadyFor(f, plan, id)
    ensures var g := f[R.ReleaseDir(id) := R.Directory]; AllWritable(g, plan, id) && RoomFor(g, id)
  {
    var g := f[R.ReleaseDir(id) := R.Directory];
    var m :| ReleaseRuns.Root(f, m);
    ReleaseRuns.ReleaseDirIsNoMark(id);
    RootKept(f, g, m);
    forall path ensures Stored(id, path) != R.ReleaseDir(id) && |R.MetaPath(id)| > |R.ReleaseDir(id)| {
      assert |Stored(id, path)| > |R.ReleaseDir(id)|;
    }
  }

  lemma RoomKept(f: R.Fs, g: R.Fs, id: string)
    requires RoomFor(f, id) && FrameKept(f, g) && StillWritable(f, g)
    ensures RoomFor(g, id)
  {
    var m :| ReleaseRuns.Root(f, m);
    RootKept(f, g, m);
  }

  /**
   * A plan is materialised only under its own hash; with any other hash, or none, nothing is touched. If nothing is
   * in the way it is materialised exactly if the source still reads as planned and its entrypoint is planned.
   */
  method SiteTwinSync(
    t: Twin, fs: R.ReleaseFs, exclude: seq<string>, matches: (string, string) -> bool, l: Lister, d: Dir,
    planHash: string, builtAt: string, reread: string -> Option<seq<Byte>>)
    returns (outcome: Outcome)
    requires fs.host == R.Local && Lists(l) && WellNamed(d)
    modifies fs
    ensures
      var plan := PlanOf(t, RulesFor(exclude, matches), l, d);
      var extras := Extras("deployment-twin", t.profileVersion, t.profileRef);
      outcome.Done? ==>
        && Materialised(t, fs.entries, plan, extras, builtAt)
        && outcome.releaseId == TwinId(ManifestOf(t, plan, extras).planHash)
    ensures
      var m := TwinManifest(t, PlanOf(t, RulesFor(exclude, matches), l, d));
      var fits := Lower(Strip(planHash)) != "" && Lower(Strip(planHash)) == m.planHash;
      && (outcome.Done? ==> fits)
      && (outcome == Failed(PlanHashMismatch) <==> !fits)
      && (outcome == Failed(PlanHashMismatch) ==> fs.entries == old(fs.entries))
    ensures
      var plan := PlanOf(t, RulesFor(exclude, matches), l, d);
      var m := TwinManifest(t, plan);
      ReadyFor(old(fs.entries), plan, TwinId(m.planHash)) ==>
        (outcome.Done? <==>
          && Lower(Strip(planHash)) != "" && Lower(Strip(planHash)) == m.planHash
          && RereadsAsPlanned(t, plan, reread) && HasDigests(plan)
          && EntrypointFits(t, plan, MetaFor(t, m, builtAt)))
  {
    var plan := PlanLocalTree(exclude, matches, l, d, t.remotePath, t.sha);
    PlannedPathsDistinct(RulesFor(exclude, matches), l, d, t.remotePath, t.sha);
    outcome := SyncPlan(t, fs, plan, planHash, builtAt, reread);
  }

  function TwinManifest(t: Twin, plan: seq<PlanItem>): ManifestData {
    ManifestOf(t, plan, Extras("deployment-twin", t.profileVersion, t.profileRef))
  }

  lemma HashFits(t: Twin, plan: seq<PlanItem>, planHash: string)
    ensures VerifyPlanHash(t.textSha, plan, planHash, [], TargetOf(t))
       <==> Lower(Strip(planHash)) != "" && Lower(Strip(planHash)) == TwinManifest(t, plan).planHash
  {
  }

  method SyncPlan(
    t: Twin, fs: R.ReleaseFs, plan: seq<PlanItem>, planHash: string, builtAt: string,
    reread: string -> Option<seq<Byte>>)
    returns (outcome: Outcome)
    requires fs.host == R.Local && DistinctPaths(plan)
    modifies fs
    ensures
      var extras := Extras("deployment-twin", t.profileVersion, t.profileRef);
      outcome.Done? ==>
        && Materialised(t, fs.entries, plan, extras, builtAt)
        && outcome.releaseId == TwinId(ManifestOf(t, plan, extras).planHash)
    ensures
      var fits := Lower(Strip(planHash)) != "" && Lower(Strip(planHash)) == TwinManifest(t, plan).planHash;
      && (outcome.Done? ==> fits)
      && (outcome == Failed(PlanHashMismatch) <==> !fits)
      && (outcome == Failed(PlanHashMismatch) ==> fs.entries == old(fs.entries))
    ensures
      var m := TwinManifest(t, plan);
      ReadyFor(old(fs.entries), plan, TwinId(m.planHash)) ==>
        (outcome.Done? <==>
          && Lower(Strip(planHash)) != "" && Lower(Strip(planHash)) == m.planHash
          && RereadsAsPlanned(t, plan, reread) && HasDigests(plan)
          && EntrypointFits(t, plan, MetaFor(t, m, builtAt)))
  {
    var extras := Extras("deployment-twin", t.profileVersion, t.profileRef);
    HashFits(t, plan, planHash);
    if !VerifyPlanHash(t.textSha, plan, planHash, [], TargetOf(t)) {
      return Failed(PlanHashMismatch);
    }
    outcome := Materialise(t, fs, plan, extras, builtAt, reread);
  }

  method Materialise(
    t: Twin, fs: R.ReleaseFs, plan: seq<PlanItem>, extras: Extras, builtAt: string,
    reread: string -> Option<seq<Byte>>)
    returns (outcome: Outcome)
    requires fs.host == R.Local && DistinctPaths(plan)
    modifies fs
    ensures outcome.Done? ==>
      && Materialised(t, fs.entries, plan, extras, builtAt)
      && outcome.releaseId == TwinId(ManifestOf(t, plan, extras).planHash)
    ensures outcome != Failed(PlanHashMismatch)
    ensures
      var m := ManifestOf(t, plan, extras);
      ReadyFor(old(fs.entries), plan, TwinId(m.planHash)) ==>
        (outcome.Done? <==>
          && RereadsAsPlanned(t, plan, reread) && HasDigests(plan)
          && EntrypointFits(t, plan, MetaFor(t, m, builtAt)))
  {
    var id := TwinId(ManifestOf(t, plan, extras).planHash);
    ghost var first := fs.entries;
    ghost var ready := ReadyFor(first, plan, id);
    var ok := fs.MkdirP(R.ReleaseDir(id));
    if !ok {
      return Failed(OsError);
    }
    if ready {
      MadeReady(first, plan, id);
    }
    ghost var made := fs.entries;
    var failure := CopyFiles(t, fs, plan, id, reread);
    if failure.Some? {
      return Failed(failure.value);
    }
    if ready {
      RoomKept(made, fs.entries, id);
    }
    outcome := Publish(t, fs, plan, extras, builtAt);
  }

  // ----- observing the twin -----

  function SiteTwinCurrent(t: Twin, fs: R.Fs, plan: seq<PlanItem>): Outcome {
    match R.ReadState(fs).current
    case None => Failed(ReleaseNotFound)
    case Some(id) =>
      match Bytes(fs, R.MetaPath(id))
      case None => Failed(ReleaseNotFound)
      case Some(raw) =>
        match t.load(raw)
        case None => Failed(MetaInvalid)
        case Some(meta) =>
          var m := ManifestOf(t, plan, Extras("", "", ""));
          var content, item := Bytes(fs, Stored(id, t.entrypoint)), ItemAt(plan, t.entrypoint);
          var digest := if content.Some? then t.sha(content.value) else "";
          if && item.Some? && digest == item.value.sha256
             && meta.planHash == m.planHash && meta.artifactSha256 == m.sourceSha256
          then Done(id) else Failed(VerificationFailed)
  }

  /** The current release has a marker that loads. */
  ghost predicate Shows(t: Twin, fs: R.Fs, id: string, meta: Meta) {
    && R.ReadState(fs).current == Some(id)
    && Bytes(fs, R.MetaPath(id)).Some? && t.load(Bytes(fs, R.MetaPath(id)).value) == Some(meta)
  }

  /**
   * In a root of any state: what a positive observation vouches for, the entrypoint's bytes and both hashes of the
   * marker, and what the other answers mean.
   */
  lemma ObservationMeans(t: Twin, fs: R.Fs, plan: seq<PlanItem>, id: string)
    requires HasDigests(plan)
    ensures var outcome, m := SiteTwinCurrent(t, fs, plan), TwinManifest(t, plan);
            var current := R.ReadState(fs).current;
      && (outcome == Done(id) <==>
            && EntrypointStored(t, fs, plan, id)
            && exists meta ::
                 Shows(t, fs, id, meta) && meta.planHash == m.planHash && meta.artifactSha256 == m.sourceSha256)
      && (outcome == Failed(ReleaseNotFound) <==> current.None? || Bytes(fs, R.MetaPath(current.value)).None?)
      && (outcome == Failed(MetaInvalid) <==>
            && current.Some? && Bytes(fs, R.MetaPath(current.value)).Some?
            && t.load(Bytes(fs, R.MetaPath(current.value)).value).None?)
  {
    ItemAtFound(plan, t.entrypoint);
    var item := ItemAt(plan, t.entrypoint);
    if item.Some? {
      var i :| 0 <= i < |plan| && plan[i] == item.value;
    }
    if SiteTwinCurrent(t, fs, plan) == Done(id) {
      var meta := t.load(Bytes(fs, R.MetaPath(id)).value).value;
      assert Shows(t, fs, id, meta);
    }
  }

  /** Releases are named apart by the first sixteen characters of their hashes, and a digest makes a valid name. */
  lemma TwinIdTellsApart(h: string, k: string)
    requires |h| >= 16 && |k| >= 16
    ensures TwinId(h) == TwinId(k) <==> h[..16] == k[..16]
    ensures (forall c | c in h :: R.IdChar(c)) ==> R.ValidId(TwinId(h))
  {
    assert TwinId(h)[9..] == h[..16] && TwinId(k)[9..] == k[..16];
    assert forall i | 4 <= i < 9 :: R.IdChar("rel_twin_"[i]);
    assert forall i | 9 <= i < |TwinId(h)| :: TwinId(h)[i] == h[i - 9];
  }

  /** Plans for another domain or another place there have another text under their hash. */
  lemma HashNamesPlace(t: Twin, u: Twin, p: seq<PlanItem>, q: seq<PlanItem>)
    requires HashText(t.textSha, p, [], TargetOf(t)) == HashText(t.textSha, q, [], TargetOf(u))
    ensures t.domain == u.domain && t.remotePath == u.remotePath
  {
    HashTextExactly(t.textSha, p, q, [], [], TargetOf(t), TargetOf(u));
  }

  // ----- the round trip -----

  ghost predicate Has(leaves: seq<Leaf>, path: string, content: seq<Byte>) {
    exists j | 0 <= j < |leaves| :: leaves[j].Path() == path && leaves[j].content == content
  }

  ghost predicate Within(a: seq<Leaf>, b: seq<Leaf>) {
    forall i | 0 <= i < |a| :: Has(b, a[i].Path(), a[i].content)
  }

  ghost predicate SameSource(a: seq<Leaf>, b: seq<Leaf>) { Within(a, b) && Within(b, a) }

  /** SHA-256 tells the two versions of each file apart. */
  ghost predicate DigestsTellApart(t: Twin, a: seq<Leaf>, b: seq<Leaf>) {
    forall i, j | 0 <= i < |a| && 0 <= j < |b| && t.sha(a[i].content) == t.sha(b[j].content) ::
      a[i].content == b[j].content
  }

  lemma FilePlanned(t: Twin, leaves: seq<Leaf>, f: File)
    ensures f in FileSet(Items(t.sha, t.remotePath, leaves))
       <==> exists j | 0 <= j < |leaves| :: leaves[j].Path() == f.0 && t.sha(leaves[j].content) == f.1
  {
    var q := Items(t.sha, t.remotePath, leaves);
    if f in FileSet(q) {
      var j :| 0 <= j < |q| && FileOf(q[j]) == f;
      assert leaves[j].Path() == f.0;
    } else if j :| 0 <= j < |leaves| && leaves[j].Path() == f.0 && t.sha(leaves[j].content) == f.1 {
      assert FileOf(q[j]) == f;
    }
  }

  lemma LeafPlanned(t: Twin, x: Leaf, b: seq<Leaf>)
    requires forall j | 0 <= j < |b| && t.sha(x.content) == t.sha(b[j].content) :: x.content == b[j].content
    ensures (x.Path(), t.sha(x.content)) in FileSet(Items(t.sha, t.remotePath, b)) <==> Has(b, x.Path(), x.content)
  {
    FilePlanned(t, b, (x.Path(), t.sha(x.content)));
  }

  lemma WithinFiles(t: Twin, a: seq<Leaf>, b: seq<Leaf>)
    requires DigestsTellApart(t, a, b)
    ensures FileSet(Items(t.sha, t.remotePath, a)) <= FileSet(Items(t.sha, t.remotePath, b)) <==> Within(a, b)
  {
    var p, q := Items(t.sha, t.remotePath, a), Items(t.sha, t.remotePath, b);
    forall i | 0 <= i < |a| ensures FileOf(p[i]) in FileSet(q) <==> Has(b, a[i].Path(), a[i].content) {
      LeafPlanned(t, a[i], b);
    }
    assert forall f | f in FileSet(p) :: exists i | 0 <= i < |p| :: FileOf(p[i]) == f;
    assert forall i | 0 <= i < |p| :: FileOf(p[i]) in FileSet(p);
  }

  lemma SameSourceFiles(t: Twin, a: seq<Leaf>, b: seq<Leaf>)
    requires DigestsTellApart(t, a, b)
    ensures FileSet(Items(t.sha, t.remotePath, a)) == FileSet(Items(t.sha, t.remotePath, b)) <==> SameSource(a, b)
  {
    WithinFiles(t, a, b);
    WithinFiles(t, b, a);
  }

  lemma {:induction false} ItemAtFound(plan: seq<PlanItem>, path: string)
    ensures ItemAt(plan, path).Some? ==> ItemAt(plan, path).value in plan && ItemAt(plan, path).value.path == path
    ensures forall i | 0 <= i < |plan| && plan[i].path == path :: ItemAt(plan, path).Some?
  {
    if plan != [] {
      ItemAtFound(plan[1..], path);
      assert plan == [plan[0]] + plan[1..];
    }
  }

  /** Plans for the same files agree on the digest of every path. */
  lemma SameDigestAt(p: seq<PlanItem>, q: seq<PlanItem>, path: string)
    requires DistinctPaths(p) && DistinctPaths(q) && FileSet(p) == FileSet(q) && ItemAt(p, path).Some?
    ensures ItemAt(q, path).Some? && ItemAt(q, path).value.sha256 == ItemAt(p, path).value.sha256
  {
    ItemAtFound(p, path);
    ItemAtFound(q, path);
    var i :| 0 <= i < |p| && p[i] == ItemAt(p, path).value;
    assert FileOf(p[i]) in FileSet(q);
    var j :| 0 <= j < |q| && FileOf(q[j]) == FileOf(p[i]);
    assert ItemAt(q, path).value in q;
  }

  /**
   * After a successful synchronisation, while the twin's root is left alone, observing the twin succeeds
   * with that release exactly when the planned source, paths and contents, is unchanged.
   */
  lemma TwinRoundTrip(
    t: Twin, fs: R.Fs, r: Rules, l: Lister, d: Dir, extras: Extras, builtAt: string,
    s: Rules, k: Lister, e: Dir)
    requires Lists(l) && Lists(k) && WellNamed(d) && WellNamed(e)
    requires Materialised(t, fs, PlanOf(t, r, l, d), extras, builtAt)
    requires var meta := MetaFor(t, ManifestOf(t, PlanOf(t, r, l, d), extras), builtAt);
             t.load(t.dump(meta)) == Some(meta)
    requires DigestsTellApart(t, Leaves(r, l, d, []), Leaves(s, k, e, []))
    requires var a := HashText(t.textSha, PlanOf(t, r, l, d), [], TargetOf(t));
             var b := HashText(t.textSha, PlanOf(t, s, k, e), [], TargetOf(t));
             t.textSha(a) == t.textSha(b) ==> a == b
    ensures SiteTwinCurrent(t, fs, PlanOf(t, s, k, e))
            == Done(TwinId(ManifestOf(t, PlanOf(t, r, l, d), extras).planHash))
       <==> SameSource(Leaves(r, l, d, []), Leaves(s, k, e, []))
  {
    var p, q := PlanOf(t, r, l, d), PlanOf(t, s, k, e);
    PlannedPathsDistinct(r, l, d, t.remotePath, t.sha);
    PlannedPathsDistinct(s, k, e, t.remotePath, t.sha);
    SameSourceFiles(t, Leaves(r, l, d, []), Leaves(s, k, e, []));
    ObservedExactly(t, fs, p, q, extras, builtAt);
  }

  lemma ObservedExactly(
    t: Twin, fs: R.Fs, p: seq<PlanItem>, q: seq<PlanItem>, extras: Extras, builtAt: string)
    requires DistinctPaths(p) && DistinctPaths(q) && Materialised(t, fs, p, extras, builtAt)
    requires var meta := MetaFor(t, ManifestOf(t, p, extras), builtAt); t.load(t.dump(meta)) == Some(meta)
    requires var a, b := HashText(t.textSha, p, [], TargetOf(t)), HashText(t.textSha, q, [], TargetOf(t));
             t.textSha(a) == t.textSha(b) ==> a == b
    ensures SiteTwinCurrent(t, fs, q) == Done(TwinId(ManifestOf(t, p, extras).planHash)) <==> FileSet(p) == FileSet(q)
  {
    HashTextBindsPlan(t.textSha, p, q, [], [], TargetOf(t), TargetOf(t));
    SameFiles(p, q);
    if FileSet(p) == FileSet(q) {
      SameDigestAt(p, q, t.entrypoint);
    }
  }
}
