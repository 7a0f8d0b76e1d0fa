/** Releases under one release root: `current` and `previous` as links or as pointer files. */
module ReleaseOps {
  import opened Text
  import opened Utf8
  import opened Json

  /** What is stored under a path; paths are relative to the release root. */
  datatype Entry = Directory | File(data: seq<Byte>) | Link(target: string)

  type Fs = map<string, Entry>

  /** A local file system sees links themselves when asked for existence, an SFTP server what they lead to. */
  datatype Host = Local | Sftp(allowsLinks: bool)

  datatype Strategy = Auto | Symlink | Pointer

  datatype Error = InvalidId | NotFound | NoPrevious | RollbackNoop | OsError

  const CURRENT := "current"
  const PREVIOUS := "previous"
  const POINTER_CURRENT := ".release_current.json"
  const POINTER_PREVIOUS := ".release_previous.json"
  const META := "__subactor_release.json"

  function ReleaseDir(id: string): string { "releases/" + id }

  function MetaPath(id: string): string { ReleaseDir(id) + "/" + META }

  predicate IdChar(c: char) {
    'A' <= c <= 'Z' || 'a' <= c <= 'z' || '0' <= c <= '9' || c == '_' || c == '-'
  }

  predicate ValidId(id: string) {
    |id| > 4 && id[..4] == "rel_" && forall i | 4 <= i < |id| :: IdChar(id[i])
  }

  // ----- pointer files -----

  function PointerPayload(id: string): seq<Byte> {
    Utf8.Encode(Print(ObjectOf([("path", ReleaseDir(id)), ("release_id", id), ("strategy", "pointer")])))
  }

  function ParsePointer(raw: seq<Byte>): Option<string> {
    match Utf8.Decode(raw)
    case None => None
    case Some(text) =>
      match ReadDict(text)
      case None => None
      case Some(d) => if ValidId(Get(d, "release_id")) then Some(Get(d, "release_id")) else None
  }

  lemma PointerRoundTrip(id: string)
    requires ValidId(id)
    ensures ParsePointer(PointerPayload(id)) == Some(id)
  {
    var ps := [("path", ReleaseDir(id)), ("release_id", id), ("strategy", "pointer")];
    Utf8.DecodeEncode(Print(ObjectOf(ps)));
    assert ps[2].0[0] != ps[1].0[0];
    PrintedPairRead(ps, 1);
  }

  // ----- single operations of the file system -----

  datatype FsOp = Unlink(name: string) | Remove(name: string) | MakeLink(name: string, target: string)

  predicate Exists(host: Host, fs: Fs, name: string) {
    name in fs && (host.Sftp? && fs[name].Link? ==> fs[name].target in fs)
  }

  /** None stands for an operating-system error; an SFTP removal that fails is ignored. */
  function Do(host: Host, fs: Fs, op: FsOp): Option<Fs> {
    match op
    case Unlink(name) =>
      if name in fs && !fs[name].Directory? then Some(fs - {name}) else if host.Sftp? then Some(fs) else None
    case Remove(name) =>
      if name in fs && fs[name].Directory? then
        if host.Sftp? then Some(fs)
        else if exists k | k in fs :: name + "/" <= k then None
        else Some(fs - {name})
      else Some(fs - {name})
    case MakeLink(name, target) =>
      if name in fs || host == Sftp(false) then None else Some(fs[name := Link(target)])
  }

  /** Operations in order, up to the first error. */
  function Exec(host: Host, fs: Fs, ops: seq<FsOp>): (Fs, bool)
    decreases |ops|
  {
    if ops == [] then (fs, true)
    else
      match Do(host, fs, ops[0])
      case None => (fs, false)
      case Some(g) => Exec(host, g, ops[1..])
  }

  lemma ExecOne(host: Host, fs: Fs, op: FsOp)
    ensures Exec(host, fs, [op])
         == match Do(host, fs, op) case None => (fs, false) case Some(g) => (g, true)
  {
    assert [op][1..] == [];
  }

  lemma ExecTwo(host: Host, fs: Fs, first: FsOp, second: FsOp)
    ensures Exec(host, fs, [first, second])
         == match Do(host, fs, first) case None => (fs, false) case Some(g) => Exec(host, g, [second])
  {
    assert [first, second][1..] == [second];
  }

  // ----- reading the state -----

  /** What a path ends in: the text after its last slash. */
  function LastSegment(path: string): string {
    if path == "" || path[|path| - 1] == '/' then "" else LastSegment(path[..|path| - 1]) + [path[|path| - 1]]
  }

  function LinkedId(fs: Fs, name: string): Option<string> {
    if name in fs && fs[name].Link? then
      var id := LastSegment(TrimRight(fs[name].target, IsSlash));
      if id == "" then None else Some(id)
    else None
  }

  function PointedId(fs: Fs, name: string): Option<string> {
    if name in fs && fs[name].File? then ParsePointer(fs[name].data) else None
  }

  /** The current and the previous release, where there is one. */
  datatype Slots = Slots(current: Option<string>, previous: Option<string>)

  /** Links are preferred to pointer files. */
  function ReadState(fs: Fs): Slots {
    Slots(
      if LinkedId(fs, CURRENT).Some? then LinkedId(fs, CURRENT) else PointedId(fs, POINTER_CURRENT),
      if LinkedId(fs, PREVIOUS).Some? then LinkedId(fs, PREVIOUS) else PointedId(fs, POINTER_PREVIOUS))
  }

  // ----- activation -----

  function PreviousAfter(s: Slots, id: string): Option<string> {
    if s.current.Some? && s.current.value != id then s.current else s.previous
  }

  /** Replacing a link is two operations: remove what is there, then create. */
  function LinkOps(host: Host, fs: Fs, target: string, name: string): seq<FsOp> {
    if Exists(host, fs, name) then [Unlink(name), MakeLink(name, target)] else [MakeLink(name, target)]
  }

  function ClearOps(host: Host, fs: Fs, name: string): seq<FsOp> {
    if Exists(host, fs, name) then [Remove(name)] else []
  }

  /** The operations of each phase of a symlink activation, in the state in which the phase starts. */
  function PhaseOps(host: Host, fs: Fs, id: string, previous: Option<string>, phase: nat): seq<FsOp> {
    match phase
    case 0 =>
      if previous.Some? then LinkOps(host, fs, ReleaseDir(previous.value), PREVIOUS) else ClearOps(host, fs, PREVIOUS)
    case 1 => LinkOps(host, fs, ReleaseDir(id), CURRENT)
    case 2 => ClearOps(host, fs, POINTER_CURRENT)
    case _ => ClearOps(host, fs, POINTER_PREVIOUS)
  }

  /** Phases `phase` to 3. */
  function Phases(host: Host, fs: Fs, id: string, previous: Option<string>, phase: nat): (Fs, bool)
    requires phase <= 4
    decreases 4 - phase
  {
    if phase == 4 then (fs, true)
    else
      var (g, ok) := Exec(host, fs, PhaseOps(host, fs, id, previous, phase));
      if ok then Phases(host, g, id, previous, phase + 1) else (g, false)
  }

  function ViaSymlink(host: Host, fs: Fs, id: string, previous: Option<string>): (Fs, bool) {
    Phases(host, fs, id, previous, 0)
  }

  predicate Writable(fs: Fs, name: string) { name in fs ==> fs[name].File? }

  function ViaPointer(fs: Fs, id: string, previous: Option<string>): (Fs, bool) {
    if !Writable(fs, POINTER_CURRENT) then (fs, false)
    else
      var g := fs[POINTER_CURRENT := File(PointerPayload(id))];
      if previous.None? then (g, true)
      else if !Writable(g, POINTER_PREVIOUS) then (g, false)
      else (g[POINTER_PREVIOUS := File(PointerPayload(previous.value))], true)
  }

  datatype Reply = Activated(current: string, previous: Option<string>) | Failed(error: Error)

  predicate Found(host: Host, fs: Fs, id: string) {
    (MetaPath(id) in fs && fs[MetaPath(id)].File?) || Exists(host, fs, ReleaseDir(id))
  }

  function Answer(result: (Fs, bool), id: string, previous: Option<string>): (Fs, Reply) {
    (result.0, if result.1 then Activated(id, previous) else Failed(OsError))
  }

  function ActivateRelease(host: Host, fs: Fs, id: string, strategy: Strategy): (Fs, Reply) {
    if !ValidId(id) then (fs, Failed(InvalidId))
    else if !Found(host, fs, id) then (fs, Failed(NotFound))
    else
      var previous := PreviousAfter(ReadState(fs), id);
      match strategy
      case Pointer => Answer(ViaPointer(fs, id, previous), id, previous)
      case Symlink => Answer(ViaSymlink(host, fs, id, previous), id, previous)
      case Auto =>
        var (g, ok) := ViaSymlink(host, fs, id, previous);
        if ok then (g, Activated(id, previous)) else Answer(ViaPointer(g, id, previous), id, previous)
  }

  /** `explicit` is the requested release, blank when the recorded previous one is meant. */
  function RollbackRelease(host: Host, fs: Fs, explicit: string, strategy: Strategy): (Fs, Reply) {
    var state := ReadState(fs);
    var target := if explicit != "" then Some(explicit) else state.previous;
    if target.None? then (fs, Failed(NoPrevious))
    else if state.current == target then (fs, Failed(RollbackNoop))
    else ActivateRelease(host, fs, target.value, strategy)
  }

  // ----- what is refused -----

  /** An activation is refused for its id, or for a release of which there is neither a marker nor a directory. */
  lemma RefusedExactly(host: Host, fs: Fs, id: string, strategy: Strategy)
    ensures var (g, reply) := ActivateRelease(host, fs, id, strategy);
            var dir, marker := ReleaseDir(id), MetaPath(id);
            var listed := dir in fs && (host == Local || !fs[dir].Link? || fs[dir].target in fs);
      && (reply == Failed(InvalidId) <==> !ValidId(id))
      && (reply == Failed(NotFound) <==> ValidId(id) && !(marker in fs && fs[marker].File?) && !listed)
      && (reply in {Failed(InvalidId), Failed(NotFound)} ==> g == fs)
      && reply !in {Failed(NoPrevious), Failed(RollbackNoop)}
  {
  }

  lemma RollbackRefusedExactly(host: Host, fs: Fs, explicit: string, strategy: Strategy)
    ensures var (g, reply) := RollbackRelease(host, fs, explicit, strategy);
      && (reply == Failed(NoPrevious) <==> explicit == "" && ReadState(fs).previous.None?)
      && (reply == Failed(RollbackNoop) <==>
            && ReadState(fs).current.Some?
            && if explicit == "" then ReadState(fs).previous == ReadState(fs).current
               else explicit == ReadState(fs).current.value)
      && (reply in {Failed(NoPrevious), Failed(RollbackNoop)} ==> g == fs)
  {
    var target := if explicit != "" then Some(explicit) else ReadState(fs).previous;
    if target.Some? {
      RefusedExactly(host, fs, target.value, strategy);
    }
  }

  /**
   * A link is replaced exactly where links are allowed and its name is free or taken by what can be removed. A link
   * that leads nowhere looks free to an SFTP server and is in the way. What fails has removed the old link only
   * where links are denied.
   */
  lemma LinkReplacedExactly(host: Host, fs: Fs, target: string, name: string)
    ensures var (g, ok) := Exec(host, fs, LinkOps(host, fs, target, name));
            var taken := name in fs && (host.Sftp? && fs[name].Link? ==> fs[name].target in fs);
      && (ok <==> host != Sftp(false) && (name in fs ==> taken && !fs[name].Directory?))
      && g == if ok then fs[name := Link(target)]
              else if host == Sftp(false) && taken && !fs[name].Directory? then fs - {name} else fs
  {
    ExecTwo(host, fs, Unlink(name), MakeLink(name, target));
    ExecOne(host, fs, MakeLink(name, target));
    var g := Do(host, fs, Unlink(name));
    if g.Some? {
      ExecOne(host, g.value, MakeLink(name, target));
    }
    assert name in fs ==> (fs - {name})[name := Link(target)] == fs[name := Link(target)];
  }

  /**
   * What is in the way of nothing is cleared: a file or a link goes, over SFTP not a link that leads nowhere. A local
   * directory goes if it is empty and is an error otherwise; over SFTP it stays and nobody notices.
   */
  lemma ClearedExactly(host: Host, fs: Fs, name: string)
    ensures var (g, ok) := Exec(host, fs, ClearOps(host, fs, name));
            var listed := name in fs && (host == Local || !fs[name].Link? || fs[name].target in fs);
            var full := name in fs && fs[name].Directory? && exists k :: k in fs && name + "/" <= k;
      && (ok <==> !(host == Local && full))
      && g == if listed && (fs[name].Directory? ==> host == Local && !full) then fs - {name} else fs
  {
    ExecOne(host, fs, Remove(name));
  }

  /** A link is read as the last name of its target, whatever slashes end it. */
  lemma LinkRead(fs: Fs, name: string, dir: string, id: string, slashes: string)
    requires name in fs && fs[name] == Link(dir + "/" + id + slashes)
    requires id != "" && '/' !in id && forall i | 0 <= i < |slashes| :: IsSlash(slashes[i])
    ensures LinkedId(fs, name) == Some(id)
  {
    TrimRightIs(dir + "/" + id, slashes, IsSlash);
    LastOf(dir, id);
  }

  lemma {:induction false} LastOf(dir: string, id: string)
    requires '/' !in id
    ensures LastSegment(dir + "/" + id) == id
  {
    var path := dir + "/" + id;
    if id != "" {
      var front := id[..|id| - 1];
      assert path[..|path| - 1] == dir + "/" + front && path[|path| - 1] == id[|id| - 1];
      LastOf(dir, front);
      assert front + [id[|id| - 1]] == id;
    }
  }

  /** Whatever a pointer file holds, only a valid release id is read from it. */
  lemma PointedIsValid(fs: Fs, name: string)
    ensures PointedId(fs, name).Some? ==> fs[name].File? && ValidId(PointedId(fs, name).value)
  {
  }

  // ----- the procedures, step by step on a mutable file system -----

  class ReleaseFs {
    const host: Host
    var entries: Fs

    constructor (host: Host, initial: Fs)
      ensures this.host == host && entries == initial
    {
      this.host := host;
      entries := initial;
    }

    method DoOp(op: FsOp) returns (ok: bool)
      modifies this
      ensures ok == Do(host, old(entries), op).Some?
      ensures entries == if ok then Do(host, old(entries), op).value else old(entries)
    {
      var r := Do(host, entries, op);
      ok := r.Some?;
      if ok {
        entries := r.value;
      }
    }

    method WriteBytes(name: string, data: seq<Byte>) returns (ok: bool)
      modifies this
      ensures ok == Writable(old(entries), name)
      ensures entries == if ok then old(entries)[name := File(data)] else old(entries)
    {
      ok := !(name in entries) || entries[name].File?;
      if ok {
        entries := entries[name := File(data)];
      }
    }

    method MkdirP(name: string) returns (ok: bool)
      modifies this
      ensures ok == (name in old(entries) ==> old(entries)[name].Directory?)
      ensures entries == if ok then old(entries)[name := Directory] else old(entries)
    {
      ok := !(name in entries) || entries[name].Directory?;
      if ok {
        entries := entries[name := Directory];
      }
    }

    method ReplaceLink(target: string, name: string) returns (ok: bool)
      modifies this
      ensures (entries, ok) == Exec(host, old(entries), LinkOps(host, old(entries), target, name))
    {
      ok := true;
      ExecTwo(host, entries, Unlink(name), MakeLink(name, target));
      if Exists(host, entries, name) {
        ok := DoOp(Unlink(name));
      }
      ExecOne(host, entries, MakeLink(name, target));
      if ok {
        ok := DoOp(MakeLink(name, target));
      }
    }

    method Clear(name: string) returns (ok: bool)
      modifies this
      ensures (entries, ok) == Exec(host, old(entries), ClearOps(host, old(entries), name))
    {
      ok := true;
      ExecOne(host, entries, Remove(name));
      if Exists(host, entries, name) {
        ok := DoOp(Remove(name));
      }
    }

    method ActivateViaSymlink(id: string, previous: Option<string>) returns (ok: bool)
      modifies this
      ensures (entries, ok) == ViaSymlink(host, old(entries), id, previous)
    {
      if previous.Some? {
        ok := ReplaceLink(ReleaseDir(previous.value), PREVIOUS);
      } else {
        ok := Clear(PREVIOUS);
      }
      if ok {
        ok := ReplaceLink(ReleaseDir(id), CURRENT);
      }
      if ok {
        ok := Clear(POINTER_CURRENT);
      }
      if ok {
        ok := Clear(POINTER_PREVIOUS);
      }
    }

    method ActivateViaPointer(id: string, previous: Option<string>) returns (ok: bool)
      modifies this
      ensures (entries, ok) == ViaPointer(old(entries), id, previous)
    {
      ok := WriteBytes(POINTER_CURRENT, PointerPayload(id));
      if ok && previous.Some? {
        ok := WriteBytes(POINTER_PREVIOUS, PointerPayload(previous.value));
      }
    }

    method Activate(id: string, strategy: Strategy) returns (r: Reply)
      modifies this
      ensures (entries, r) == ActivateRelease(host, old(entries), id, strategy)
    {
      if !ValidId(id) {
        return Failed(InvalidId);
      }
      if !Found(host, entries, id) {
        return Failed(NotFound);
      }
      var previous := PreviousAfter(ReadState(entries), id);
      var ok := false;
      if !strategy.Pointer? {
        ok := ActivateViaSymlink(id, previous);
      }
      if strategy.Pointer? || (strategy.Auto? && !ok) {
        ok := ActivateViaPointer(id, previous);
      }
      r := if ok then Activated(id, previous) else Failed(OsError);
    }

    method Rollback(explicit: string, strategy: Strategy) returns (r: Reply)
      modifies this
      ensures (entries, r) == RollbackRelease(host, old(entries), explicit, strategy)
    {
      var state := ReadState(entries);
      var target := if explicit != "" then Some(explicit) else state.previous;
      if target.None? {
        return Failed(NoPrevious);
      }
      if state.current == target {
        return Failed(RollbackNoop);
      }
      r := Activate(target.value, strategy);
    }
  }
}
