/** What activation, rollback, crashes and whole runs do to the recorded releases. */
module ReleaseRuns {
  import opened Text
  import opened ReleaseOps

  // ----- the shape of a root the connector leaves behind -----

  ghost predicate Released(fs: Fs, id: string) {
    ValidId(id) && ReleaseDir(id) in fs && fs[ReleaseDir(id)].Directory?
  }

  /** The entry is absent for None, and otherwise the link to an existing release. */
  ghost predicate LinksTo(fs: Fs, name: string, slot: Option<string>) {
    match slot
    case None => name !in fs
    case Some(id) => name in fs && fs[name] == Link(ReleaseDir(id)) && Released(fs, id)
  }

  ghost predicate PointsTo(fs: Fs, name: string, slot: Option<string>) {
    match slot
    case None => name !in fs
    case Some(id) => name in fs && fs[name] == File(PointerPayload(id)) && Released(fs, id)
  }

  /** What the two links and the two pointer files say. */
  datatype Marks = Marks(
    link: Option<string>, previousLink: Option<string>, pointer: Option<string>, previousPointer: Option<string>)

  ghost predicate Root(fs: Fs, m: Marks) {
    && LinksTo(fs, CURRENT, m.link) && LinksTo(fs, PREVIOUS, m.previousLink)
    && PointsTo(fs, POINTER_CURRENT, m.pointer) && PointsTo(fs, POINTER_PREVIOUS, m.previousPointer)
  }

  function Either(a: Option<string>, b: Option<string>): Option<string> { if a.Some? then a else b }

  function SlotsOf(m: Marks): Slots { Slots(Either(m.link, m.pointer), Either(m.previousLink, m.previousPointer)) }

  ghost predicate PureLinks(fs: Fs, s: Slots) { Root(fs, Marks(s.current, s.previous, None, None)) }

  ghost predicate PurePointers(fs: Fs, s: Slots) { Root(fs, Marks(None, None, s.current, s.previous)) }

  /** A previous release is recorded only beside a current one, and differs from it. */
  ghost predicate Proper(s: Slots) {
    s.previous.Some? ==> s.current.Some? && s.previous != s.current
  }

  predicate IsMark(name: string) { name in {CURRENT, PREVIOUS, POINTER_CURRENT, POINTER_PREVIOUS} }

  /** The roots differ at most in links and pointer files; in particular they hold the same releases. */
  ghost predicate OnlyMarksDiffer(fs: Fs, g: Fs) {
    && (forall id | Released(fs, id) :: Released(g, id))
    && (forall name | !IsMark(name) :: name in fs <==> name in g)
    && (forall name | !IsMark(name) && name in fs :: fs[name] == g[name])
  }

  lemma ReleaseDirIsNoMark(id: string)
    ensures !IsMark(ReleaseDir(id))
    ensures CURRENT != PREVIOUS && POINTER_CURRENT != POINTER_PREVIOUS
    ensures CURRENT !in {POINTER_CURRENT, POINTER_PREVIOUS} && PREVIOUS !in {POINTER_CURRENT, POINTER_PREVIOUS}
  {
    assert ReleaseDir(id)[0] == 'r' && CURRENT[0] == 'c' && PREVIOUS[0] == 'p';
    assert POINTER_CURRENT[0] == '.' && POINTER_PREVIOUS[0] == '.';
    assert |POINTER_CURRENT| < |POINTER_PREVIOUS|;
  }

  lemma {:induction false} SegmentAfterSlash(dir: string, id: string)
    requires forall c | c in id :: c != '/'
    ensures LastSegment(dir + "/" + id) == id
  {
    var path := dir + "/" + id;
    if id != "" {
      var init := id[..|id| - 1];
      assert path[..|path| - 1] == dir + "/" + init;
      assert id[|id| - 1] in id && path[|path| - 1] == id[|id| - 1];
      assert forall c | c in init :: c in id;
      SegmentAfterSlash(dir, init);
      assert init + [id[|id| - 1]] == id;
    }
  }

  lemma LinkedIdOfRelease(fs: Fs, name: string, id: string)
    requires ValidId(id) && name in fs && fs[name] == Link(ReleaseDir(id))
    ensures LinkedId(fs, name) == Some(id)
  {
    var path := ReleaseDir(id);
    assert forall i | 0 <= i < |id| :: id[i] != '/' by {
      assert forall i | 0 <= i < 4 :: id[i] == id[..4][i];
    }
    assert path[|path| - 1] == id[|id| - 1];
    SegmentAfterSlash("releases", id);
    assert path == "releases" + "/" + id;
  }

  /** Reading a root gives what its links say and, without a link, what its pointer files say. */
  lemma ReadRoot(fs: Fs, m: Marks)
    requires Root(fs, m)
    ensures ReadState(fs) == SlotsOf(m)
  {
    if m.link.Some? { LinkedIdOfRelease(fs, CURRENT, m.link.value); }
    if m.previousLink.Some? { LinkedIdOfRelease(fs, PREVIOUS, m.previousLink.value); }
    if m.pointer.Some? { PointerRoundTrip(m.pointer.value); }
    if m.previousPointer.Some? { PointerRoundTrip(m.previousPointer.value); }
  }

  // ----- one phase of an activation, operation by operation -----

  ghost predicate CanLink(host: Host) { host != Sftp(false) }

  ghost function LinkMark(m: Marks, name: string): Option<string>
    requires name == CURRENT || name == PREVIOUS
  {
    if name == CURRENT then m.link else m.previousLink
  }

  ghost function SetLink(m: Marks, name: string, slot: Option<string>): Marks
    requires name == CURRENT || name == PREVIOUS
  {
    if name == CURRENT then m.(link := slot) else m.(previousLink := slot)
  }

  ghost function PointerMark(m: Marks, name: string): Option<string>
    requires name == POINTER_CURRENT || name == POINTER_PREVIOUS
  {
    if name == POINTER_CURRENT then m.pointer else m.previousPointer
  }

  ghost function ClearPointer(m: Marks, name: string): Marks
    requires name == POINTER_CURRENT || name == POINTER_PREVIOUS
  {
    if name == POINTER_CURRENT then m.(pointer := None) else m.(previousPointer := None)
  }

  lemma WithoutLink(host: Host, fs: Fs, m: Marks, name: string)
    requires Root(fs, m) && (name == CURRENT || name == PREVIOUS)
    ensures Exists(host, fs, name) <==> LinkMark(m, name).Some?
    ensures LinkMark(m, name).Some? ==>
      Do(host, fs, Unlink(name)) == Do(host, fs, Remove(name)) == Some(fs - {name})
    ensures Root(fs - {name}, SetLink(m, name, None)) && OnlyMarksDiffer(fs, fs - {name})
  {
    ReleaseDirIsNoMark("");
    forall id ensures ReleaseDir(id) != name { ReleaseDirIsNoMark(id); }
  }

  lemma WithLink(host: Host, fs: Fs, m: Marks, name: string, id: string)
    requires Root(fs, m) && (name == CURRENT || name == PREVIOUS) && LinkMark(m, name) == None
    requires CanLink(host) && Released(fs, id)
    ensures Do(host, fs, MakeLink(name, ReleaseDir(id))) == Some(fs[name := Link(ReleaseDir(id))])
    ensures Root(fs[name := Link(ReleaseDir(id))], SetLink(m, name, Some(id)))
    ensures OnlyMarksDiffer(fs, fs[name := Link(ReleaseDir(id))])
  {
    ReleaseDirIsNoMark("");
    forall id ensures ReleaseDir(id) != name { ReleaseDirIsNoMark(id); }
  }

  lemma WithoutPointer(host: Host, fs: Fs, m: Marks, name: string)
    requires Root(fs, m) && (name == POINTER_CURRENT || name == POINTER_PREVIOUS)
    ensures Exists(host, fs, name) <==> PointerMark(m, name).Some?
    ensures PointerMark(m, name).Some? ==> Do(host, fs, Remove(name)) == Some(fs - {name})
    ensures Root(fs - {name}, ClearPointer(m, name)) && OnlyMarksDiffer(fs, fs - {name})
  {
    ReleaseDirIsNoMark("");
    forall id ensures ReleaseDir(id) != name { ReleaseDirIsNoMark(id); }
  }

  /** How many operations replacing a link takes, and the marks after `k` of them. */
  function ReplaceLength(slot: Option<string>): nat { if slot.Some? then 2 else 1 }

  ghost function MarksReplacing(m: Marks, name: string, id: string, k: nat): Marks
    requires name == CURRENT || name == PREVIOUS
  {
    if k == 0 then m
    else if k == ReplaceLength(LinkMark(m, name)) then SetLink(m, name, Some(id))
    else SetLink(m, name, None)
  }

  lemma ReplacingLink(host: Host, fs: Fs, m: Marks, name: string, id: string, k: nat)
    requires Root(fs, m) && (name == CURRENT || name == PREVIOUS) && CanLink(host) && Released(fs, id)
    requires k <= |LinkOps(host, fs, ReleaseDir(id), name)|
    ensures |LinkOps(host, fs, ReleaseDir(id), name)| == ReplaceLength(LinkMark(m, name))
    ensures var (g, ok) := Exec(host, fs, LinkOps(host, fs, ReleaseDir(id), name)[..k]);
            ok && Root(g, MarksReplacing(m, name, id, k)) && OnlyMarksDiffer(fs, g)
  {
    var ops := LinkOps(host, fs, ReleaseDir(id), name);
    var make := MakeLink(name, ReleaseDir(id));
    WithoutLink(host, fs, m, name);
    if LinkMark(m, name).Some? {
      var g := fs - {name};
      ExecOne(host, fs, Unlink(name));
      ExecTwo(host, fs, Unlink(name), make);
      WithLink(host, g, SetLink(m, name, None), name, id);
      ExecOne(host, g, make);
      assert ops[..1] == [Unlink(name)] && ops[..2] == ops;
    } else {
      WithLink(host, fs, m, name, id);
      ExecOne(host, fs, make);
      assert ops[..1] == ops;
    }
  }

  lemma ClearingLink(host: Host, fs: Fs, m: Marks, name: string, k: nat)
    requires Root(fs, m) && (name == CURRENT || name == PREVIOUS) && k <= |ClearOps(host, fs, name)|
    ensures |ClearOps(host, fs, name)| == if LinkMark(m, name).Some? then 1 else 0
    ensures var (g, ok) := Exec(host, fs, ClearOps(host, fs, name)[..k]);
            ok && Root(g, if k == 0 then m else SetLink(m, name, None)) && OnlyMarksDiffer(fs, g)
  {
    WithoutLink(host, fs, m, name);
    ExecOne(host, fs, Remove(name));
    assert k == 1 ==> ClearOps(host, fs, name)[..k] == [Remove(name)];
  }

  lemma ClearingPointer(host: Host, fs: Fs, m: Marks, name: string, k: nat)
    requires Root(fs, m) && (name == POINTER_CURRENT || name == POINTER_PREVIOUS)
    requires k <= |ClearOps(host, fs, name)|
    ensures |ClearOps(host, fs, name)| == if PointerMark(m, name).Some? then 1 else 0
    ensures var (g, ok) := Exec(host, fs, ClearOps(host, fs, name)[..k]);
            ok && Root(g, if k == 0 then m else ClearPointer(m, name)) && OnlyMarksDiffer(fs, g)
  {
    WithoutPointer(host, fs, m, name);
    ExecOne(host, fs, Remove(name));
    assert k == 1 ==> ClearOps(host, fs, name)[..k] == [Remove(name)];
  }

  /** The length of a phase and the marks after `k` of its operations. */
  ghost function PhaseLength(m: Marks, previous: Option<string>, phase: nat): nat {
    match phase
    case 0 => if previous.Some? then ReplaceLength(m.previousLink) else if m.previousLink.Some? then 1 else 0
    case 1 => ReplaceLength(m.link)
    case 2 => if m.pointer.Some? then 1 else 0
    case _ => if m.previousPointer.Some? then 1 else 0
  }

  ghost function MarksIn(m: Marks, id: string, previous: Option<string>, phase: nat, k: nat): Marks {
    if k == 0 then m
    else
      match phase
      case 0 => if previous.Some? then MarksReplacing(m, PREVIOUS, previous.value, k) else m.(previousLink := None)
      case 1 => MarksReplacing(m, CURRENT, id, k)
      case 2 => m.(pointer := None)
      case _ => m.(previousPointer := None)
  }

  lemma InPhase(host: Host, fs: Fs, m: Marks, id: string, previous: Option<string>, phase: nat, k: nat)
    requires Root(fs, m) && CanLink(host) && Released(fs, id) && phase < 4
    requires previous.Some? ==> Released(fs, previous.value)
    requires k <= |PhaseOps(host, fs, id, previous, phase)|
    ensures |PhaseOps(host, fs, id, previous, phase)| == PhaseLength(m, previous, phase)
    ensures var (g, ok) := Exec(host, fs, PhaseOps(host, fs, id, previous, phase)[..k]);
            ok && Root(g, MarksIn(m, id, previous, phase, k)) && OnlyMarksDiffer(fs, g)
  {
    ReleaseDirIsNoMark("");
    match phase {
      case 0 =>
        if previous.Some? {
          ReplacingLink(host, fs, m, PREVIOUS, previous.value, k);
        } else {
          ClearingLink(host, fs, m, PREVIOUS, k);
        }
      case 1 => ReplacingLink(host, fs, m, CURRENT, id, k);
      case 2 => ClearingPointer(host, fs, m, POINTER_CURRENT, k);
      case _ => ClearingPointer(host, fs, m, POINTER_PREVIOUS, k);
    }
  }

  // ----- whole activations -----

  /** The marks when phase `phase` starts. */
  ghost function MarksAt(m: Marks, id: string, previous: Option<string>, phase: nat): Marks {
    Marks(
      if phase >= 2 then Some(id) else m.link,
      if phase >= 1 then previous else m.previousLink,
      if phase >= 3 then None else m.pointer,
      if phase >= 4 then None else m.previousPointer)
  }

  lemma WholePhase(m: Marks, id: string, previous: Option<string>, phase: nat)
    requires phase < 4
    ensures var n := MarksAt(m, id, previous, phase);
            MarksIn(n, id, previous, phase, PhaseLength(n, previous, phase)) == MarksAt(m, id, previous, phase + 1)
  {
    ReleaseDirIsNoMark("");
  }

  lemma PhaseDone(host: Host, fs: Fs, m: Marks, id: string, previous: Option<string>, phase: nat) returns (g: Fs)
    requires phase < 4 && Root(fs, MarksAt(m, id, previous, phase)) && CanLink(host) && Released(fs, id)
    requires previous.Some? ==> Released(fs, previous.value)
    ensures Exec(host, fs, PhaseOps(host, fs, id, previous, phase)) == (g, true)
    ensures Root(g, MarksAt(m, id, previous, phase + 1)) && OnlyMarksDiffer(fs, g)
  {
    var ops := PhaseOps(host, fs, id, previous, phase);
    InPhase(host, fs, MarksAt(m, id, previous, phase), id, previous, phase, |ops|);
    assert ops[..|ops|] == ops;
    WholePhase(m, id, previous, phase);
    g := Exec(host, fs, ops).0;
  }

  lemma {:induction false} PhasesDone(
    host: Host, fs: Fs, m: Marks, id: string, previous: Option<string>, phase: nat)
    requires phase <= 4 && Root(fs, MarksAt(m, id, previous, phase)) && CanLink(host) && Released(fs, id)
    requires previous.Some? ==> Released(fs, previous.value)
    ensures var (g, ok) := Phases(host, fs, id, previous, phase);
            ok && Root(g, Marks(Some(id), previous, None, None)) && OnlyMarksDiffer(fs, g)
    decreases 4 - phase
  {
    if phase < 4 {
      var g := PhaseDone(host, fs, m, id, previous, phase);
      PhasesDone(host, g, m, id, previous, phase + 1);
    }
  }

  /** The two-slot machine: the new release becomes current, the one it replaces previous. */
  function SlotActivate(s: Slots, id: string): Slots { Slots(Some(id), PreviousAfter(s, id)) }

  ghost predicate SlotsReleased(fs: Fs, s: Slots) {
    (s.current.Some? ==> Released(fs, s.current.value)) && (s.previous.Some? ==> Released(fs, s.previous.value))
  }

  lemma RootReleased(fs: Fs, m: Marks)
    requires Root(fs, m)
    ensures SlotsReleased(fs, SlotsOf(m))
  {
  }

  /** From any root, links or pointers or both, a symlink activation ends in exactly the links it should. */
  lemma SymlinkActivation(host: Host, fs: Fs, m: Marks, id: string, strategy: Strategy)
    requires Root(fs, m) && CanLink(host) && Released(fs, id) && !strategy.Pointer?
    ensures var (g, r) := ActivateRelease(host, fs, id, strategy);
      && r == Activated(id, PreviousAfter(SlotsOf(m), id))
      && PureLinks(g, SlotActivate(SlotsOf(m), id)) && OnlyMarksDiffer(fs, g)
  {
    ReadRoot(fs, m);
    RootReleased(fs, m);
    PhasesDone(host, fs, m, id, PreviousAfter(SlotsOf(m), id), 0);
  }

  // ----- crash and retry -----

  /** The state in which phase `phase` starts. */
  function AtPhase(host: Host, fs: Fs, id: string, previous: Option<string>, phase: nat): Fs {
    if phase == 0 then fs
    else
      var g := AtPhase(host, fs, id, previous, phase - 1);
      Exec(host, g, PhaseOps(host, g, id, previous, phase - 1)).0
  }

  /** A symlink activation of `id` stopped after `k` operations of phase `phase`. */
  function Crashed(host: Host, fs: Fs, id: string, phase: nat, k: nat): Fs
    requires k <= |CrashOps(host, fs, id, phase)|
  {
    Exec(host, AtPhase(host, fs, id, PreviousAfter(ReadState(fs), id), phase), CrashOps(host, fs, id, phase)[..k]).0
  }

  function CrashOps(host: Host, fs: Fs, id: string, phase: nat): seq<FsOp> {
    var previous := PreviousAfter(ReadState(fs), id);
    PhaseOps(host, AtPhase(host, fs, id, previous, phase), id, previous, phase)
  }

  lemma PhasesStep(host: Host, fs: Fs, id: string, previous: Option<string>, phase: nat, g: Fs)
    requires phase < 4 && Exec(host, fs, PhaseOps(host, fs, id, previous, phase)) == (g, true)
    ensures Phases(host, fs, id, previous, phase) == Phases(host, g, id, previous, phase + 1)
  {
  }

  lemma AtPhaseStep(host: Host, fs: Fs, id: string, previous: Option<string>, phase: nat, before: Fs, g: Fs)
    requires phase > 0 && before == AtPhase(host, fs, id, previous, phase - 1)
    requires Exec(host, before, PhaseOps(host, before, id, previous, phase - 1)) == (g, true)
    ensures AtPhase(host, fs, id, previous, phase) == g
  {
  }

  lemma {:induction false} AtPhaseMarks(
    host: Host, fs: Fs, m: Marks, id: string, previous: Option<string>, phase: nat)
    requires phase <= 4 && Root(fs, m) && CanLink(host) && Released(fs, id)
    requires previous.Some? ==> Released(fs, previous.value)
    ensures var g := AtPhase(host, fs, id, previous, phase);
      && Root(g, MarksAt(m, id, previous, phase)) && OnlyMarksDiffer(fs, g)
      && Phases(host, g, id, previous, phase) == ViaSymlink(host, fs, id, previous)
  {
    if phase > 0 {
      AtPhaseMarks(host, fs, m, id, previous, phase - 1);
      var before := AtPhase(host, fs, id, previous, phase - 1);
      var g := PhaseDone(host, before, m, id, previous, phase - 1);
      PhasesStep(host, before, id, previous, phase - 1, g);
      AtPhaseStep(host, fs, id, previous, phase, before, g);
      DifferTransitive(fs, before, g);
    }
  }

  lemma DifferTransitive(fs: Fs, g: Fs, h: Fs)
    requires OnlyMarksDiffer(fs, g) && OnlyMarksDiffer(g, h)
    ensures OnlyMarksDiffer(fs, h)
  {
  }

  /** The crash points are the points of the activation: after the last phase its final state is reached. */
  lemma CrashPointsLeadToTheEnd(host: Host, fs: Fs, m: Marks, id: string)
    requires Root(fs, m) && CanLink(host) && Released(fs, id)
    ensures AtPhase(host, fs, id, PreviousAfter(ReadState(fs), id), 4) == ActivateRelease(host, fs, id, Symlink).0
  {
    ReadRoot(fs, m);
    RootReleased(fs, m);
    SymlinkActivation(host, fs, m, id, Symlink);
    AtPhaseMarks(host, fs, m, id, PreviousAfter(SlotsOf(m), id), 4);
  }

  ghost function CrashMarks(m: Marks, id: string, phase: nat, k: nat): Marks {
    var previous := PreviousAfter(SlotsOf(m), id);
    MarksIn(MarksAt(m, id, previous, phase), id, previous, phase, k)
  }

  lemma CrashRoot(host: Host, fs: Fs, m: Marks, id: string, phase: nat, k: nat)
    requires Root(fs, m) && CanLink(host) && Released(fs, id) && phase < 4
    requires k <= |CrashOps(host, fs, id, phase)|
    ensures |CrashOps(host, fs, id, phase)|
         == PhaseLength(MarksAt(m, id, PreviousAfter(SlotsOf(m), id), phase), PreviousAfter(SlotsOf(m), id), phase)
    ensures Root(Crashed(host, fs, id, phase, k), CrashMarks(m, id, phase, k))
    ensures Released(Crashed(host, fs, id, phase, k), id) && OnlyMarksDiffer(fs, Crashed(host, fs, id, phase, k))
  {
    ReadRoot(fs, m);
    RootReleased(fs, m);
    var previous := PreviousAfter(SlotsOf(m), id);
    AtPhaseMarks(host, fs, m, id, previous, phase);
    InPhase(host, AtPhase(host, fs, id, previous, phase), MarksAt(m, id, previous, phase), id, previous, phase, k);
    DifferTransitive(fs, AtPhase(host, fs, id, previous, phase), Crashed(host, fs, id, phase, k));
  }

  /**
   * The crashes after which a retry ends otherwise than the activation would have. Either the old `previous` link
   * has just been removed, no pointer file says the same, and nothing else is to be demoted; or the old `current`
   * link has just been removed and a left-over pointer file is read instead, which names another release than the
   * new one and the recorded previous one.
   */
  predicate Loses(m: Marks, id: string, phase: nat, k: nat) {
    && k == 1
    && (|| (&& phase == 0 && m.previousLink.Some? && m.previousPointer != m.previousLink
            && SlotsOf(m).current in {None, Some(id)})
        || (&& phase == 1 && m.link.Some? && m.pointer.Some?
            && m.pointer !in {Some(id), PreviousAfter(SlotsOf(m), id)}))
  }

  /** The readings at a crash point, on the marks alone. */
  lemma CrashReadings(m: Marks, id: string, phase: nat, k: nat)
    requires phase < 4
    requires var previous := PreviousAfter(SlotsOf(m), id);
             k <= PhaseLength(MarksAt(m, id, previous, phase), previous, phase)
    ensures var c := SlotsOf(CrashMarks(m, id, phase, k));
      && c.current in {SlotsOf(m).current, m.pointer, Some(id)}
      && (PreviousAfter(c, id) == PreviousAfter(SlotsOf(m), id) <==> !Loses(m, id, phase, k))
  {
    ReleaseDirIsNoMark("");
  }

  /**
   * From any root, also one that an earlier crash has left: stop a symlink activation after any single operation.
   * The readable current release is the old one, what a pointer file says, or the new one; and one uninterrupted
   * retry ends with the pair that no crash would have given exactly if the crash is not a losing one.
   */
  lemma CrashThenRetryExactly(host: Host, fs: Fs, m: Marks, id: string, phase: nat, k: nat)
    requires Root(fs, m) && CanLink(host) && Released(fs, id) && phase < 4 && k <= |CrashOps(host, fs, id, phase)|
    ensures var g := Crashed(host, fs, id, phase, k);
      && Root(g, CrashMarks(m, id, phase, k)) && Released(g, id) && OnlyMarksDiffer(fs, g)
      && ReadState(g).current in {SlotsOf(m).current, m.pointer, Some(id)}
      && ActivateRelease(host, g, id, Symlink).1.Activated?
      && (ReadState(ActivateRelease(host, g, id, Symlink).0) == ReadState(ActivateRelease(host, fs, id, Symlink).0)
          <==> !Loses(m, id, phase, k))
  {
    var g, c := Crashed(host, fs, id, phase, k), CrashMarks(m, id, phase, k);
    CrashRoot(host, fs, m, id, phase, k);
    CrashReadings(m, id, phase, k);
    ReadRoot(g, c);
    ActivationReadsBack(host, fs, m, id);
    ActivationReadsBack(host, g, c, id);
  }

  function PureMarks(s: Slots, linked: bool): Marks {
    if linked then Marks(s.current, s.previous, None, None) else Marks(None, None, s.current, s.previous)
  }

  /** From a consistent root only one crash loses: re-activating the current release, its previous link just removed. */
  ghost predicate LosesPrevious(fs: Fs, s: Slots, id: string, phase: nat, k: nat) {
    s.current == Some(id) && s.previous.Some? && PREVIOUS in fs && phase == 0 && k == 1
  }

  /** From a consistent pure root the readable current release is the old one, none or the new one. */
  lemma CrashThenRetry(host: Host, fs: Fs, s: Slots, id: string, phase: nat, k: nat)
    requires (PureLinks(fs, s) || PurePointers(fs, s)) && Proper(s)
    requires CanLink(host) && Released(fs, id) && phase < 4 && k <= |CrashOps(host, fs, id, phase)|
    ensures var g := Crashed(host, fs, id, phase, k);
      && ReadState(g).current in {s.current, None, Some(id)}
      && ActivateRelease(host, g, id, Symlink).1.Activated?
      && (ReadState(ActivateRelease(host, g, id, Symlink).0) == ReadState(ActivateRelease(host, fs, id, Symlink).0)
          <==> !LosesPrevious(fs, s, id, phase, k))
  {
    var linked := PureLinks(fs, s);
    CrashThenRetryExactly(host, fs, PureMarks(s, linked), id, phase, k);
    assert s.previous.Some? ==> (linked <==> PREVIOUS in fs);
  }

  /** Where each of several attempts in a row is stopped. */
  datatype CrashPoint = CrashPoint(phase: nat, k: nat)

  function Interrupted(host: Host, fs: Fs, id: string, points: seq<CrashPoint>): Fs
    decreases |points|
  {
    if points == [] || points[0].k > |CrashOps(host, fs, id, points[0].phase)| then fs
    else Interrupted(host, Crashed(host, fs, id, points[0].phase, points[0].k), id, points[1..])
  }

  /** Each point lies within its attempt, and none is a losing one for the marks that the attempt finds. */
  ghost predicate Harmless(m: Marks, id: string, points: seq<CrashPoint>)
    decreases |points|
  {
    points != [] ==>
      var p, previous := points[0], PreviousAfter(SlotsOf(m), id);
      && p.phase < 4 && p.k <= PhaseLength(MarksAt(m, id, previous, p.phase), previous, p.phase)
      && !Loses(m, id, p.phase, p.k) && Harmless(CrashMarks(m, id, p.phase, p.k), id, points[1..])
  }

  lemma SameLinks(base: Fs, f: Fs, g: Fs, s: Slots)
    requires PureLinks(f, s) && PureLinks(g, s) && OnlyMarksDiffer(base, f) && OnlyMarksDiffer(base, g)
    ensures f == g
  {
    forall name ensures name in f <==> name in g {
    }
    forall name | name in f ensures f[name] == g[name] {
    }
  }

  /** A harmless crash leaves no trace once a retry completes: not even the file systems differ. */
  lemma HarmlessCrash(host: Host, fs: Fs, m: Marks, id: string, phase: nat, k: nat)
    requires Root(fs, m) && CanLink(host) && Released(fs, id) && phase < 4 && k <= |CrashOps(host, fs, id, phase)|
    requires !Loses(m, id, phase, k)
    ensures ActivateRelease(host, Crashed(host, fs, id, phase, k), id, Symlink)
         == ActivateRelease(host, fs, id, Symlink)
  {
    var g, c := Crashed(host, fs, id, phase, k), CrashMarks(m, id, phase, k);
    CrashThenRetryExactly(host, fs, m, id, phase, k);
    CrashReadingsAgain(host, fs, m, id, phase, k);
    SymlinkActivation(host, fs, m, id, Symlink);
    SymlinkActivation(host, g, c, id, Symlink);
    DifferTransitive(fs, g, ActivateRelease(host, g, id, Symlink).0);
    SameLinks(fs, ActivateRelease(host, fs, id, Symlink).0, ActivateRelease(host, g, id, Symlink).0,
              SlotActivate(SlotsOf(m), id));
  }

  lemma CrashReadingsAgain(host: Host, fs: Fs, m: Marks, id: string, phase: nat, k: nat)
    requires Root(fs, m) && CanLink(host) && Released(fs, id) && phase < 4 && k <= |CrashOps(host, fs, id, phase)|
    requires !Loses(m, id, phase, k)
    ensures PreviousAfter(SlotsOf(CrashMarks(m, id, phase, k)), id) == PreviousAfter(SlotsOf(m), id)
  {
    CrashRoot(host, fs, m, id, phase, k);
    CrashReadings(m, id, phase, k);
  }

  /**
   * After any number of interrupted attempts, none of them at a losing point, one that completes answers and leaves
   * exactly what the first would have: whole runs with such crashes in them are runs without.
   */
  lemma {:induction false} RetriesEndAlike(host: Host, fs: Fs, m: Marks, id: string, points: seq<CrashPoint>)
    requires Root(fs, m) && CanLink(host) && Released(fs, id) && Harmless(m, id, points)
    ensures ActivateRelease(host, Interrupted(host, fs, id, points), id, Symlink)
         == ActivateRelease(host, fs, id, Symlink)
    decreases |points|
  {
    if points != [] {
      var p := points[0];
      AttemptLength(host, fs, m, id, p.phase);
      CrashThenRetryExactly(host, fs, m, id, p.phase, p.k);
      HarmlessCrash(host, fs, m, id, p.phase, p.k);
      RetriesEndAlike(
        host, Crashed(host, fs, id, p.phase, p.k), CrashMarks(m, id, p.phase, p.k), id, points[1..]);
    }
  }

  lemma AttemptLength(host: Host, fs: Fs, m: Marks, id: string, phase: nat)
    requires Root(fs, m) && CanLink(host) && Released(fs, id) && phase < 4
    ensures var previous := PreviousAfter(SlotsOf(m), id);
            |CrashOps(host, fs, id, phase)| == PhaseLength(MarksAt(m, id, previous, phase), previous, phase)
  {
    CrashRoot(host, fs, m, id, phase, 0);
  }

  /** Two crashes in a row can lose the old release although the new one was never current. */
  lemma TwoCrashesLoseTheOldRelease(host: Host, fs: Fs, before: string, id: string)
    requires PureLinks(fs, Slots(Some(before), None)) && CanLink(host) && Released(fs, id) && id != before
    ensures |CrashOps(host, fs, id, 1)| >= 1
    ensures var g := Crashed(host, fs, id, 1, 1);
      && ReadState(g) == Slots(None, Some(before)) && |CrashOps(host, g, id, 0)| >= 1
      && ReadState(Crashed(host, g, id, 0, 1)) == Slots(None, None)
      && ReadState(ActivateRelease(host, Crashed(host, g, id, 0, 1), id, Symlink).0) == Slots(Some(id), None)
      && ReadState(ActivateRelease(host, fs, id, Symlink).0) == Slots(Some(id), Some(before))
  {
    ReleaseDirIsNoMark("");
    var m := Marks(Some(before), None, None, None);
    var n := Marks(None, Some(before), None, None);
    var k := Marks(None, None, None, None);
    AttemptLength(host, fs, m, id, 1);
    CrashThenRetryExactly(host, fs, m, id, 1, 1);
    var g := Crashed(host, fs, id, 1, 1);
    assert CrashMarks(m, id, 1, 1) == n;
    ReadRoot(g, n);
    AttemptLength(host, g, n, id, 0);
    CrashThenRetryExactly(host, g, n, id, 0, 1);
    assert CrashMarks(n, id, 0, 1) == k;
    ReadRoot(Crashed(host, g, id, 0, 1), k);
    ActivationReadsBack(host, fs, m, id);
    ActivationReadsBack(host, Crashed(host, g, id, 0, 1), k, id);
  }

  lemma ActivationReadsBack(host: Host, fs: Fs, m: Marks, id: string)
    requires Root(fs, m) && CanLink(host) && Released(fs, id)
    ensures ActivateRelease(host, fs, id, Symlink).1.Activated?
    ensures ReadState(ActivateRelease(host, fs, id, Symlink).0) == SlotActivate(SlotsOf(m), id)
  {
    SymlinkActivation(host, fs, m, id, Symlink);
    var g := ActivateRelease(host, fs, id, Symlink).0;
    var after := SlotActivate(SlotsOf(m), id);
    ReadRoot(g, Marks(after.current, after.previous, None, None));
  }

  // ----- activation by pointer files -----

  ghost function SetPointer(m: Marks, name: string, id: string): Marks
    requires name == POINTER_CURRENT || name == POINTER_PREVIOUS
  {
    if name == POINTER_CURRENT then m.(pointer := Some(id)) else m.(previousPointer := Some(id))
  }

  lemma WithPointer(fs: Fs, m: Marks, name: string, id: string)
    requires Root(fs, m) && (name == POINTER_CURRENT || name == POINTER_PREVIOUS) && Released(fs, id)
    ensures var g := fs[name := File(PointerPayload(id))];
            Writable(fs, name) && Root(g, SetPointer(m, name, id)) && OnlyMarksDiffer(fs, g)
  {
    ReleaseDirIsNoMark("");
    forall other ensures ReleaseDir(other) != name { ReleaseDirIsNoMark(other); }
  }

  /** The marks after an activation by pointer files, which leaves links alone. */
  ghost function MarksPointed(m: Marks, id: string): Marks {
    m.(pointer := Some(id), previousPointer := Either(PreviousAfter(SlotsOf(m), id), m.previousPointer))
  }

  lemma PointerActivation(fs: Fs, m: Marks, id: string)
    requires Root(fs, m) && Released(fs, id)
    ensures var (g, ok) := ViaPointer(fs, id, PreviousAfter(SlotsOf(m), id));
            ok && Root(g, MarksPointed(m, id)) && OnlyMarksDiffer(fs, g)
  {
    ReleaseDirIsNoMark("");
    RootReleased(fs, m);
    WithPointer(fs, m, POINTER_CURRENT, id);
    var g := fs[POINTER_CURRENT := File(PointerPayload(id))];
    var previous := PreviousAfter(SlotsOf(m), id);
    if previous.Some? {
      WithPointer(g, SetPointer(m, POINTER_CURRENT, id), POINTER_PREVIOUS, previous.value);
    }
  }

  /**
   * From any root, what a pointer activation records is read back exactly where no other link hides it: this is
   * why whole runs must not ask for pointer files after links.
   */
  lemma PointerReadBackExactly(host: Host, fs: Fs, m: Marks, id: string)
    requires Root(fs, m) && Released(fs, id)
    ensures var (g, r) := ActivateRelease(host, fs, id, Pointer);
            var after := SlotActivate(SlotsOf(m), id);
      && r == Activated(id, after.previous)
      && (ReadState(g) == after <==>
            (m.link.Some? ==> m.link == after.current) && (m.previousLink.Some? ==> m.previousLink == after.previous))
  {
    ReadRoot(fs, m);
    PointerActivation(fs, m, id);
    ReadRoot(ActivateRelease(host, fs, id, Pointer).0, MarksPointed(m, id));
  }

  /** An activation by pointer files that is stopped between its two writes. */
  function HalfPointed(fs: Fs, id: string): Fs { fs[POINTER_CURRENT := File(PointerPayload(id))] }

  /** A crash there loses what a left-over pointer file alone recorded as current. */
  predicate LosesPointed(m: Marks, id: string) {
    m.link.None? && m.previousLink.None? && m.pointer.Some? && m.pointer !in {Some(id), m.previousPointer}
  }

  /**
   * From any root: stopped between its writes, an activation by pointer files has not recorded the release it
   * replaces, and a retry ends like no crash exactly if that release is recorded elsewhere too.
   */
  lemma PointerCrashThenRetry(host: Host, fs: Fs, m: Marks, id: string)
    requires Root(fs, m) && Released(fs, id)
    ensures var g := HalfPointed(fs, id);
      && ReadState(g) == Slots(Either(m.link, Some(id)), SlotsOf(m).previous)
      && ActivateRelease(host, g, id, Pointer).1.Activated?
      && (ReadState(ActivateRelease(host, g, id, Pointer).0) == ReadState(ActivateRelease(host, fs, id, Pointer).0)
          <==> !LosesPointed(m, id))
  {
    var g, n := HalfPointed(fs, id), SetPointer(m, POINTER_CURRENT, id);
    WithPointer(fs, m, POINTER_CURRENT, id);
    ReadRoot(g, n);
    PointedReadsBack(host, fs, m, id);
    PointedReadsBack(host, g, n, id);
  }

  lemma PointedReadsBack(host: Host, fs: Fs, m: Marks, id: string)
    requires Root(fs, m) && Released(fs, id)
    ensures var (g, r) := ActivateRelease(host, fs, id, Pointer);
            r.Activated? && ReadState(g) == SlotsOf(MarksPointed(m, id))
  {
    ReadRoot(fs, m);
    PointerActivation(fs, m, id);
    ReadRoot(ActivateRelease(host, fs, id, Pointer).0, MarksPointed(m, id));
  }

  /** From a consistent pointer root that is every activation of another release than the current one. */
  lemma PointerCrashFromPointers(host: Host, fs: Fs, s: Slots, id: string)
    requires PurePointers(fs, s) && Proper(s) && Released(fs, id)
    ensures var g := HalfPointed(fs, id);
      && ReadState(g) == Slots(Some(id), s.previous)
      && (ReadState(ActivateRelease(host, g, id, Pointer).0) == ReadState(ActivateRelease(host, fs, id, Pointer).0)
          <==> s.current in {None, Some(id)})
  {
    PointerCrashThenRetry(host, fs, PureMarks(s, false), id);
  }

  /** Where links are denied, a symlink activation of a pointer root fails before it changes anything. */
  lemma DeniedActivation(fs: Fs, s: Slots, id: string)
    requires PurePointers(fs, s)
    ensures ViaSymlink(Sftp(false), fs, id, PreviousAfter(s, id)) == (fs, false)
  {
    var previous := PreviousAfter(s, id);
    if previous.Some? {
      ExecOne(Sftp(false), fs, MakeLink(PREVIOUS, ReleaseDir(previous.value)));
    } else {
      PhasesStep(Sftp(false), fs, id, previous, 0, fs);
    }
    ExecOne(Sftp(false), fs, MakeLink(CURRENT, ReleaseDir(id)));
  }

  // ----- whole runs refine the two-slot machine -----

  datatype Op =
    | Upload(id: string)
    | Activate(id: string, strategy: Strategy)
    | Rollback(explicit: string, strategy: Strategy)

  /** An upload creates the release directory and its marker, and answers nothing here. */
  function Uploaded(fs: Fs, id: string): Fs {
    if ValidId(id) then fs[ReleaseDir(id) := Directory][MetaPath(id) := File([])] else fs
  }

  function Step(host: Host, fs: Fs, op: Op): (Fs, Option<Reply>) {
    match op
    case Upload(id) => (Uploaded(fs, id), None)
    case Activate(id, strategy) => var (g, r) := ActivateRelease(host, fs, id, strategy); (g, Some(r))
    case Rollback(explicit, strategy) => var (g, r) := RollbackRelease(host, fs, explicit, strategy); (g, Some(r))
  }

  function RunOps(host: Host, fs: Fs, ops: seq<Op>): (r: (Fs, seq<Option<Reply>>))
    ensures |r.1| == |ops|
    decreases |ops|
  {
    if ops == [] then (fs, [])
    else
      var (g, r) := Step(host, fs, ops[0]);
      var (h, rs) := RunOps(host, g, ops[1..]);
      (h, [r] + rs)
  }

  /** Two slots and the set of uploaded releases: no links, no files, no strategies. */
  datatype Machine = Machine(slots: Slots, releases: set<string>)

  function MachineActivate(host: Host, m: Machine, id: string, strategy: Strategy): (Machine, Reply) {
    if !ValidId(id) then (m, Failed(InvalidId))
    else if id !in m.releases then (m, Failed(NotFound))
    else if strategy.Symlink? && host == Sftp(false) then (m, Failed(OsError))
    else (m.(slots := SlotActivate(m.slots, id)), Activated(id, PreviousAfter(m.slots, id)))
  }

  function MachineRollback(host: Host, m: Machine, explicit: string, strategy: Strategy): (Machine, Reply) {
    var target := if explicit != "" then Some(explicit) else m.slots.previous;
    if target.None? then (m, Failed(NoPrevious))
    else if m.slots.current == target then (m, Failed(RollbackNoop))
    else MachineActivate(host, m, target.value, strategy)
  }

  function MachineStep(host: Host, m: Machine, op: Op): (Machine, Option<Reply>) {
    match op
    case Upload(id) => (if ValidId(id) then m.(releases := m.releases + {id}) else m, None)
    case Activate(id, strategy) => var (n, r) := MachineActivate(host, m, id, strategy); (n, Some(r))
    case Rollback(explicit, strategy) => var (n, r) := MachineRollback(host, m, explicit, strategy); (n, Some(r))
  }

  function RunMachine(host: Host, m: Machine, ops: seq<Op>): (Machine, seq<Option<Reply>>)
    decreases |ops|
  {
    if ops == [] then (m, [])
    else
      var (n, r) := MachineStep(host, m, ops[0]);
      var (k, rs) := RunMachine(host, n, ops[1..]);
      (k, [r] + rs)
  }

  predicate Activates(op: Op, reply: Option<Reply>) { !op.Upload? && reply.Some? && reply.value.Activated? }

  predicate MadePointers(op: Op, reply: Option<Reply>) { Activates(op, reply) && op.strategy.Pointer? }

  predicate MadeLinks(host: Host, op: Op, reply: Option<Reply>) {
    host != Sftp(false) && Activates(op, reply) && !op.strategy.Pointer?
  }

  /** No activation by pointer files succeeds after one by links. */
  ghost predicate PointersFirst(host: Host, ops: seq<Op>, replies: seq<Option<Reply>>)
    requires |ops| == |replies|
  {
    forall i, j | 0 <= i < j < |ops| && MadeLinks(host, ops[i], replies[i]) :: !MadePointers(ops[j], replies[j])
  }

  /** In the run from an empty root no pointer activation follows one by links; failed requests do not matter. */
  ghost predicate NoPointerAfterLinks(host: Host, ops: seq<Op>) {
    PointersFirst(host, ops, RunOps(host, map[], ops).1)
  }

  /** What the release tree has to do with the machine's releases. */
  ghost predicate HoldsReleases(fs: Fs, releases: set<string>) {
    && (forall id | id in releases :: Released(fs, id))
    && (forall id | ValidId(id) && id !in releases :: ReleaseDir(id) !in fs && MetaPath(id) !in fs)
  }

  ghost predicate Represents(host: Host, fs: Fs, m: Machine, linked: bool) {
    && (PurePointers(fs, m.slots) || (linked && CanLink(host) && PureLinks(fs, m.slots)))
    && HoldsReleases(fs, m.releases)
    && Proper(m.slots)
  }

  lemma RepresentsReads(host: Host, fs: Fs, m: Machine, linked: bool)
    requires Represents(host, fs, m, linked)
    ensures ReadState(fs) == m.slots
    ensures m.slots.current.Some? ==> m.slots.current.value in m.releases
    ensures m.slots.previous.Some? ==> m.slots.previous.value in m.releases
  {
    if PurePointers(fs, m.slots) {
      ReadRoot(fs, Marks(None, None, m.slots.current, m.slots.previous));
      RootReleased(fs, Marks(None, None, m.slots.current, m.slots.previous));
    } else {
      ReadRoot(fs, Marks(m.slots.current, m.slots.previous, None, None));
      RootReleased(fs, Marks(m.slots.current, m.slots.previous, None, None));
    }
  }

  lemma MetaPathIsNoRelease(id: string, other: string)
    requires ValidId(id) && ValidId(other)
    ensures MetaPath(id) != ReleaseDir(other) && !IsMark(MetaPath(id)) && !IsMark(ReleaseDir(id))
    ensures MetaPath(id) == MetaPath(other) ==> id == other
    ensures ReleaseDir(id) == ReleaseDir(other) ==> id == other
  {
    ReleaseDirIsNoMark(id);
    assert MetaPath(id)[0] == 'r' && CURRENT[0] == 'c' && PREVIOUS[0] == 'p';
    assert POINTER_CURRENT[0] == '.' && POINTER_PREVIOUS[0] == '.';
    assert ReleaseDir(id)[9..] == id && ReleaseDir(other)[9..] == other;
    assert MetaPath(id)[9 + |id|] == '/';
    if MetaPath(id) == MetaPath(other) {
      assert |id| == |other|;
      assert MetaPath(id)[9..9 + |id|] == id && MetaPath(other)[9..9 + |id|] == other;
    }
  }

  lemma ReleasesKept(fs: Fs, g: Fs, releases: set<string>)
    requires HoldsReleases(fs, releases) && OnlyMarksDiffer(fs, g)
    ensures HoldsReleases(g, releases)
  {
    forall id | ValidId(id) && id !in releases ensures ReleaseDir(id) !in g && MetaPath(id) !in g {
      MetaPathIsNoRelease(id, id);
    }
  }

  lemma UploadRefines(host: Host, fs: Fs, m: Machine, linked: bool, id: string)
    requires Represents(host, fs, m, linked) && ValidId(id)
    ensures Represents(host, Uploaded(fs, id), m.(releases := m.releases + {id}), linked)
  {
    var g := Uploaded(fs, id);
    MetaPathIsNoRelease(id, id);
    forall other | Released(fs, other) ensures Released(g, other) {
      MetaPathIsNoRelease(id, other);
    }
    forall other | ValidId(other) && other !in m.releases + {id}
      ensures ReleaseDir(other) !in g && MetaPath(other) !in g
    {
      MetaPathIsNoRelease(id, other);
      MetaPathIsNoRelease(other, id);
    }
    assert Released(g, id);
  }

  lemma FoundExactly(host: Host, fs: Fs, releases: set<string>, id: string)
    requires HoldsReleases(fs, releases) && ValidId(id)
    ensures Found(host, fs, id) <==> id in releases
  {
  }

  lemma RepresentsRoot(host: Host, fs: Fs, m: Machine, linked: bool) returns (marks: Marks)
    requires Represents(host, fs, m, linked)
    ensures Root(fs, marks) && SlotsOf(marks) == m.slots
    ensures !linked ==> marks == Marks(None, None, m.slots.current, m.slots.previous)
  {
    marks := PureMarks(m.slots, !PurePointers(fs, m.slots));
  }

  /** A release that is there can always be activated by pointer files. */
  lemma PointerActivates(host: Host, fs: Fs, m: Machine, linked: bool, id: string)
    requires Represents(host, fs, m, linked) && ValidId(id) && id in m.releases
    ensures ActivateRelease(host, fs, id, Pointer).1.Activated?
  {
    var marks := RepresentsRoot(host, fs, m, linked);
    RepresentsReads(host, fs, m, linked);
    FoundExactly(host, fs, m.releases, id);
    PointerActivation(fs, marks, id);
  }

  lemma LinksRefine(host: Host, fs: Fs, m: Machine, linked: bool, id: string, strategy: Strategy)
    requires Represents(host, fs, m, linked) && CanLink(host) && !strategy.Pointer? && ValidId(id) && id in m.releases
    ensures var (g, r) := ActivateRelease(host, fs, id, strategy);
            var (n, q) := MachineActivate(host, m, id, strategy);
            r == q && r.Activated? && Represents(host, g, n, true)
  {
    var marks := RepresentsRoot(host, fs, m, linked);
    SymlinkActivation(host, fs, marks, id, strategy);
    ReleasesKept(fs, ActivateRelease(host, fs, id, strategy).0, m.releases);
  }

  lemma PointersRefine(host: Host, fs: Fs, m: Machine, id: string, strategy: Strategy)
    requires Represents(host, fs, m, false) && (strategy.Pointer? || !CanLink(host))
    requires ValidId(id) && id in m.releases
    ensures var (g, r) := ActivateRelease(host, fs, id, strategy);
            var (n, q) := MachineActivate(host, m, id, strategy);
            r == q && Represents(host, g, n, false)
  {
    RepresentsReads(host, fs, m, false);
    FoundExactly(host, fs, m.releases, id);
    PointerActivation(fs, Marks(None, None, m.slots.current, m.slots.previous), id);
    ReleasesKept(fs, ViaPointer(fs, id, PreviousAfter(m.slots, id)).0, m.releases);
    if !CanLink(host) {
      DeniedActivation(fs, m.slots, id);
    }
  }

  lemma ActivateRefines(host: Host, fs: Fs, m: Machine, linked: bool, id: string, strategy: Strategy)
    requires Represents(host, fs, m, linked)
    requires strategy.Pointer? && ActivateRelease(host, fs, id, strategy).1.Activated? ==> !linked
    ensures var (g, r) := ActivateRelease(host, fs, id, strategy);
            var (n, q) := MachineActivate(host, m, id, strategy);
            r == q && Represents(host, g, n, linked || (CanLink(host) && r.Activated? && !strategy.Pointer?))
  {
    if ValidId(id) {
      FoundExactly(host, fs, m.releases, id);
      if id in m.releases {
        if !strategy.Pointer? && CanLink(host) {
          LinksRefine(host, fs, m, linked, id, strategy);
        } else {
          if strategy.Pointer? {
            PointerActivates(host, fs, m, linked, id);
          }
          PointersRefine(host, fs, m, id, strategy);
        }
      }
    }
  }

  lemma StepRefines(host: Host, fs: Fs, m: Machine, linked: bool, op: Op)
    requires Represents(host, fs, m, linked) && (MadePointers(op, Step(host, fs, op).1) ==> !linked)
    ensures var (g, r) := Step(host, fs, op);
            var (n, q) := MachineStep(host, m, op);
            r == q && Represents(host, g, n, linked || MadeLinks(host, op, r))
  {
    RepresentsReads(host, fs, m, linked);
    match op {
      case Upload(id) =>
        if ValidId(id) {
          UploadRefines(host, fs, m, linked, id);
        }
      case Activate(id, strategy) =>
        ActivateRefines(host, fs, m, linked, id, strategy);
      case Rollback(explicit, strategy) =>
        var target := if explicit != "" then Some(explicit) else m.slots.previous;
        if target.Some? && m.slots.current != target {
          ActivateRefines(host, fs, m, linked, target.value, strategy);
        }
    }
  }

  /** What may still follow: in order, and once there are links no activation by pointer files. */
  ghost predicate Allowed(host: Host, ops: seq<Op>, replies: seq<Option<Reply>>, linked: bool)
    requires |ops| == |replies|
  {
    && PointersFirst(host, ops, replies)
    && (linked ==> forall j | 0 <= j < |ops| :: !MadePointers(ops[j], replies[j]))
  }

  lemma AllowedTail(
    host: Host, op: Op, reply: Option<Reply>, rest: seq<Op>, replies: seq<Option<Reply>>, linked: bool)
    requires |rest| == |replies| && Allowed(host, [op] + rest, [reply] + replies, linked)
    ensures MadePointers(op, reply) ==> !linked
    ensures Allowed(host, rest, replies, linked || MadeLinks(host, op, reply))
  {
    var all, answers := [op] + rest, [reply] + replies;
    assert forall j | 0 <= j < |rest| :: rest[j] == all[j + 1] && replies[j] == answers[j + 1];
    assert MadePointers(all[0], answers[0]) ==> !linked;
    if linked || MadeLinks(host, op, reply) {
      forall j | 0 <= j < |rest| ensures !MadePointers(rest[j], replies[j]) {
        assert linked || MadeLinks(host, all[0], answers[0]);
        assert !MadePointers(all[j + 1], answers[j + 1]);
      }
    }
  }

  lemma {:induction false} RunRefines(host: Host, fs: Fs, m: Machine, linked: bool, ops: seq<Op>) returns (after: bool)
    requires Represents(host, fs, m, linked) && Allowed(host, ops, RunOps(host, fs, ops).1, linked)
    ensures RunOps(host, fs, ops).1 == RunMachine(host, m, ops).1
    ensures Represents(host, RunOps(host, fs, ops).0, RunMachine(host, m, ops).0, after)
    decreases |ops|
  {
    after := linked;
    if ops != [] {
      var rest := ops[1..];
      var g, r, n := FirstStep(host, fs, m, linked, ops[0], rest);
      assert ops == [ops[0]] + rest;
      after := RunRefines(host, g, n, linked || MadeLinks(host, ops[0], r), rest);
    }
  }

  lemma FirstStep(host: Host, fs: Fs, m: Machine, linked: bool, op: Op, rest: seq<Op>)
    returns (g: Fs, r: Option<Reply>, n: Machine)
    requires Represents(host, fs, m, linked) && Allowed(host, [op] + rest, RunOps(host, fs, [op] + rest).1, linked)
    ensures Step(host, fs, op) == (g, r) && MachineStep(host, m, op) == (n, r)
    ensures Represents(host, g, n, linked || MadeLinks(host, op, r))
    ensures Allowed(host, rest, RunOps(host, g, rest).1, linked || MadeLinks(host, op, r))
  {
    g, r := Step(host, fs, op).0, Step(host, fs, op).1;
    n := MachineStep(host, m, op).0;
    assert ([op] + rest)[1..] == rest;
    AllowedTail(host, op, r, rest, RunOps(host, g, rest).1, linked);
    StepRefines(host, fs, m, linked, op);
  }

  const EMPTY := Machine(Slots(None, None), {})

  /**
   * Every run from an empty root in which no pointer activation follows links answers like the two-slot
   * machine and leaves exactly the machine's pair to be read; a previous release is recorded only beside a
   * current one, the two differ, and both name existing release directories.
   */
  lemma ReleasesAreTwoSlots(host: Host, ops: seq<Op>)
    requires NoPointerAfterLinks(host, ops)
    ensures var (fs, replies) := RunOps(host, map[], ops);
            var (m, expected) := RunMachine(host, EMPTY, ops);
      && replies == expected && ReadState(fs) == m.slots
      && Proper(ReadState(fs)) && SlotsReleased(fs, ReadState(fs))
  {
    var linked := RunRefines(host, map[], EMPTY, false, ops);
    var fs, m := RunOps(host, map[], ops).0, RunMachine(host, EMPTY, ops).0;
    RepresentsReads(host, fs, m, linked);
  }

  lemma RunEnds(host: Host, ops: seq<Op>) returns (m: Machine)
    requires NoPointerAfterLinks(host, ops)
    ensures m == RunMachine(host, EMPTY, ops).0 && ReadState(RunOps(host, map[], ops).0) == m.slots
    ensures Proper(m.slots)
    ensures forall id | m.slots.current == Some(id) || m.slots.previous == Some(id) :: id in m.releases && ValidId(id)
  {
    m := RunMachine(host, EMPTY, ops).0;
    var linked := RunRefines(host, map[], EMPTY, false, ops);
    RepresentsReads(host, RunOps(host, map[], ops).0, m, linked);
  }

  lemma RollbackSwaps(host: Host, m: Machine, strategy: Strategy)
    requires Proper(m.slots) && m.slots.previous.Some? && !(strategy.Symlink? && host == Sftp(false))
    requires forall id | m.slots.current == Some(id) || m.slots.previous == Some(id) :: id in m.releases && ValidId(id)
    ensures MachineStep(host, m, Rollback("", strategy)).0 == m.(slots := Slots(m.slots.previous, m.slots.current))
  {
  }

  lemma {:induction false} RunOpsPrefix(host: Host, fs: Fs, ops: seq<Op>, more: seq<Op>)
    ensures RunOps(host, fs, ops).1 == RunOps(host, fs, ops + more).1[..|ops|]
    decreases |ops|
  {
    if ops != [] {
      assert (ops + more)[1..] == ops[1..] + more;
      RunOpsPrefix(host, Step(host, fs, ops[0]).0, ops[1..], more);
    }
  }

  lemma NoPointerPrefix(host: Host, ops: seq<Op>, more: seq<Op>)
    requires NoPointerAfterLinks(host, ops + more)
    ensures NoPointerAfterLinks(host, ops)
  {
    RunOpsPrefix(host, map[], ops, more);
    assert forall i | 0 <= i < |ops| :: ops[i] == (ops + more)[i];
  }

  /** Two rollbacks without an explicit target swap the pair and swap it back. */
  lemma RollbackTwice(host: Host, ops: seq<Op>, first: Strategy, second: Strategy)
    requires NoPointerAfterLinks(host, ops + [Rollback("", first)] + [Rollback("", second)])
    requires host == Sftp(false) ==> !first.Symlink? && !second.Symlink?
    requires ReadState(RunOps(host, map[], ops).0).previous.Some?
    ensures var s := ReadState(RunOps(host, map[], ops).0);
      && ReadState(RunOps(host, map[], ops + [Rollback("", first)]).0) == Slots(s.previous, s.current)
      && ReadState(RunOps(host, map[], ops + [Rollback("", first)] + [Rollback("", second)]).0) == s
  {
    var once := ops + [Rollback("", first)];
    NoPointerPrefix(host, once, [Rollback("", second)]);
    NoPointerPrefix(host, ops, [Rollback("", first)]);
    var m := RunEnds(host, ops);
    var n := RunEnds(host, once);
    var k := RunEnds(host, once + [Rollback("", second)]);
    RunMachineLast(host, EMPTY, ops, Rollback("", first));
    RunMachineLast(host, EMPTY, once, Rollback("", second));
    RollbackSwaps(host, m, first);
    RollbackSwaps(host, n, second);
  }

  lemma {:induction false} RunMachineLast(host: Host, m: Machine, ops: seq<Op>, op: Op)
    ensures RunMachine(host, m, ops + [op]).0 == MachineStep(host, RunMachine(host, m, ops).0, op).0
    decreases |ops|
  {
    if ops == [] {
      assert (ops + [op])[1..] == [];
    } else {
      assert (ops + [op])[1..] == ops[1..] + [op];
      RunMachineLast(host, MachineStep(host, m, ops[0]).0, ops[1..], op);
    }
  }
}
