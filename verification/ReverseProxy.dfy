/** Applying a managed block to a host's configuration over root SSH, with rollback. */
module ReverseProxy {
  import opened Text
  import opened Utf8
  import opened ManagedBlock
  import opened ReplayStore

  /** The configuration file; None where there is none. */
  type Config = Option<seq<Byte>>

  /** How a command ends, where None is an exception instead of an exit code, and what it writes to the file. */
  datatype Command = Command(exit: Option<int>, writes: Option<Config>)

  /** The new file is not put in place; it is; or it is, and an error is raised all the same. */
  datatype Swap = NotSwapped | Swapped | SwappedButRaised

  /**
   * What the host does: whether the lease and the connection succeed, whether an existing file can be read, whether
   * the new file is written and renamed into place, how the three commands end, whether the file can be read back,
   * and for a rollback whether the file is put back and how the last command ends.
   */
  datatype Script = Script(
    connected: bool, readable: bool, swap: Swap, commands: seq<Command>, rereadable: bool,
    restored: bool, reconfigure: Command)

  datatype Outcome =
    | Unchanged
    | Refused(verdict: Verdict)
    | Applied
    | Failed(mutated: bool, rollbackAttempted: bool, rollbackOk: bool)
    | Escaped(mutated: bool)  // an exception that the handler does not turn into an answer

  datatype State = State(config: Config, entries: Entries)

  /** The consumption that belongs to the grant. */
  datatype Grant = Grant(jti: string, expires: Option<real>, now: real)

  datatype End = Passed | Broken | Raised

  function Left(config: Config, c: Command): Config { if c.writes.Some? then c.writes.value else config }

  function RunAll(config: Config, commands: seq<Command>): (Config, End)
    decreases |commands|
  {
    if commands == [] then (config, Passed)
    else
      var left := Left(config, commands[0]);
      if commands[0].exit.None? then (left, Raised)
      else if commands[0].exit.value != 0 then (left, Broken)
      else RunAll(left, commands[1..])
  }

  /** The file as it is read at first; one that cannot be opened counts as absent. */
  function Seen(config: Config, script: Script): Config { if script.readable then config else None }

  function RolledBack(config: Config, seen: Config, script: Script): (Config, bool) {
    if !script.restored || (seen.None? && config.None?) then (config, false)
    else (Left(seen, script.reconfigure), script.reconfigure.exit == Some(0))
  }

  /** The bytes to write, where the file is text and its markers are sound. */
  datatype Target = NotText | Rejected | Bytes(value: seq<Byte>)

  function Wanted(seen: Config, directives: string): Target {
    var text := match seen case None => Some("") case Some(bytes) => Decode(bytes);
    match text
    case None => NotText
    case Some(existing) =>
      match MergeManagedDirectives(existing, directives)
      case None => Rejected
      case Some(merged) => Bytes(Encode(merged))
  }

  /** From the moment the new file is in place. */
  function AfterSwap(st: State, seen: Config, bytes: seq<Byte>, script: Script): (State, Outcome) {
    var (config, end) := RunAll(Some(bytes), script.commands);
    if end.Raised? || (end.Passed? && (!script.rereadable || config.None?)) then (st.(config := config), Escaped(true))
    else if end.Passed? && config == Some(bytes) then (st.(config := config), Applied)
    else
      var (back, ok) := RolledBack(config, seen, script);
      (st.(config := back), Failed(true, true, ok))
  }

  /** The handler once the grant has been verified. */
  function Ensured(st: State, grant: Grant, directives: string, script: Script): (State, Outcome) {
    var seen := Seen(st.config, script);
    if !script.connected then (st, Failed(false, false, false))
    else
      match Wanted(seen, directives)
      case NotText => (st, Escaped(false))
      case Rejected => (st, Failed(false, false, false))
      case Bytes(bytes) =>
        if seen == Some(bytes) then (st, Unchanged)
        else
          var key := Strip(grant.jti);
          var verdict := Judge(st.entries, key, grant.now);
          var after := st.(entries := Remember(st.entries, key, grant.expires, grant.now));
          if !verdict.Accepted? then (after, Refused(verdict))
          else
            match script.swap
            case NotSwapped => (after, Escaped(false))
            case SwappedButRaised => (after.(config := Some(bytes)), Escaped(false))
            case Swapped => AfterSwap(after, seen, bytes, script)
  }

  class ProxyHost {
    var config: Config

    constructor (initial: Config)
      ensures config == initial
    {
      config := initial;
    }

    method Run(c: Command) returns (exit: Option<int>)
      modifies this
      ensures exit == c.exit && config == Left(old(config), c)
    {
      if c.writes.Some? {
        config := c.writes.value;
      }
      exit := c.exit;
    }

    method RunCommands(commands: seq<Command>) returns (end: End)
      modifies this
      ensures (config, end) == RunAll(old(config), commands)
    {
      ghost var first := config;
      for i := 0 to |commands|
        invariant RunAll(first, commands) == RunAll(config, commands[i..])
      {
        assert commands[i..][1..] == commands[i + 1..];
        var exit := Run(commands[i]);
        if exit.None? {
          return Raised;
        }
        if exit.value != 0 {
          return Broken;
        }
      }
      end := Passed;
    }

    method Rollback(seen: Config, script: Script) returns (ok: bool)
      modifies this
      ensures (config, ok) == RolledBack(old(config), seen, script)
    {
      if !script.restored || (seen.None? && config.None?) {
        return false;
      }
      config := seen;
      var exit := Run(script.reconfigure);
      ok := exit == Some(0);
    }

    method Ensure(store: MemoryJtiReplayStore, grant: Grant, directives: string, script: Script)
      returns (outcome: Outcome)
      modifies this, store
      ensures (State(config, store.entries), outcome)
           == Ensured(State(old(config), old(store.entries)), grant, directives, script)
    {
      if !script.connected {
        return Failed(false, false, false);
      }
      var seen := Seen(config, script);
      var target := Wanted(seen, directives);
      if target.NotText? {
        return Escaped(false);
      }
      if target.Rejected? {
        return Failed(false, false, false);
      }
      if seen == Some(target.value) {
        return Unchanged;
      }
      var verdict := store.Consume(grant.jti, grant.expires, grant.now);
      if !verdict.Accepted? {
        return Refused(verdict);
      }
      if script.swap.NotSwapped? {
        return Escaped(false);
      }
      config := Some(target.value);
      if script.swap.SwappedButRaised? {
        return Escaped(false);
      }
      var end := RunCommands(script.commands);
      if end.Raised? {
        return Escaped(true);
      }
      if end.Passed? {
        if !script.rereadable || config.None? {
          return Escaped(true);
        }
        if config == Some(target.value) {
          return Applied;
        }
      }
      var ok := Rollback(seen, script);
      outcome := Failed(true, true, ok);
    }
  }

  // ----- all or restored -----

  /** The first command that does not end with exit code 0; their number if there is none. */
  function Failing(commands: seq<Command>): (k: nat)
    ensures k <= |commands|
    ensures forall i | 0 <= i < k :: commands[i].exit == Some(0)
    ensures k < |commands| ==> commands[k].exit != Some(0)
  {
    if commands == [] || commands[0].exit != Some(0) then 0 else 1 + Failing(commands[1..])
  }

  /** What a file becomes when all commands run. */
  function Written(config: Config, commands: seq<Command>): Config
    decreases |commands|
  {
    if commands == [] then config else Written(Left(config, commands[0]), commands[1..])
  }

  lemma {:induction false} EndExactly(config: Config, commands: seq<Command>)
    ensures var (left, end) := RunAll(config, commands);
            var k := Failing(commands);
      && (end.Passed? <==> k == |commands|)
      && (end.Raised? <==> k < |commands| && commands[k].exit.None?)
      && (end.Passed? ==> left == Written(config, commands))
    decreases |commands|
  {
    if commands != [] {
      EndExactly(Left(config, commands[0]), commands[1..]);
    }
  }

  /** The handler gets as far as putting the new file in place. */
  predicate Reaches(st: State, grant: Grant, directives: string, script: Script) {
    var seen := Seen(st.config, script);
    var target := Wanted(seen, directives);
    && script.connected && target.Bytes? && seen != Some(target.value)
    && Judge(st.entries, Strip(grant.jti), grant.now).Accepted?
  }

  /** The new file gets into place, and the handler goes on. */
  predicate Swaps(st: State, grant: Grant, directives: string, script: Script) {
    Reaches(st, grant, directives, script) && script.swap.Swapped?
  }

  lemma ByCases(st: State, grant: Grant, directives: string, script: Script)
    ensures var (after, outcome) := Ensured(st, grant, directives, script);
      if Reaches(st, grant, directives, script) && !script.swap.NotSwapped? then
        var bytes := Wanted(Seen(st.config, script), directives).value;
        var consumed := st.(entries := Remember(st.entries, Strip(grant.jti), grant.expires, grant.now));
        (after, outcome) == if script.swap.Swapped? then AfterSwap(consumed, Seen(st.config, script), bytes, script)
                            else (consumed.(config := Some(bytes)), Escaped(false))
      else
        after.config == st.config && !outcome.Applied? && outcome != Escaped(true)
  {
  }

  /**
   * Success with a change is reported exactly when the merge got into place, every command ended well and the
   * file could be read back as the merge; it then is the merge, and the grant was consumed for it.
   */
  lemma AppliedExactly(st: State, grant: Grant, directives: string, script: Script)
    ensures var (after, outcome) := Ensured(st, grant, directives, script);
            var target := Wanted(Seen(st.config, script), directives);
      && (outcome.Applied? <==>
            && Swaps(st, grant, directives, script) && Failing(script.commands) == |script.commands|
            && script.rereadable && Written(Some(target.value), script.commands) == Some(target.value))
      && (outcome.Applied? ==>
            && after.config == Some(target.value) && after.config != Seen(st.config, script)
            && after.entries == Remember(st.entries, Strip(grant.jti), grant.expires, grant.now))
  {
    ByCases(st, grant, directives, script);
    if Swaps(st, grant, directives, script) {
      EndExactly(Some(Wanted(Seen(st.config, script), directives).value), script.commands);
    }
  }

  /**
   * An error escapes after the change exactly when a command raises one, or all of them end well and the file is
   * gone or cannot be read back. Nothing is rolled back then.
   */
  lemma EscapedExactly(st: State, grant: Grant, directives: string, script: Script)
    ensures var target := Wanted(Seen(st.config, script), directives);
            var k := Failing(script.commands);
            Ensured(st, grant, directives, script).1 == Escaped(true)
            <==> && Swaps(st, grant, directives, script)
                 && if k < |script.commands| then script.commands[k].exit.None?
                    else !script.rereadable || Written(Some(target.value), script.commands).None?
  {
    ByCases(st, grant, directives, script);
    if Swaps(st, grant, directives, script) {
      EndExactly(Some(Wanted(Seen(st.config, script), directives).value), script.commands);
    }
  }

  /**
   * All or restored, exactly: for a file that can be read and commands that do not write it, the file ends up
   * changed without success being reported exactly when the merge got into place and then an error was raised at
   * once or by a command, or all commands ended well and the file cannot be read back, or one ended badly and the
   * restore failed.
   */
  lemma ChangedUnreportedExactly(st: State, grant: Grant, directives: string, script: Script)
    requires script.readable && script.reconfigure.writes.None?
    requires forall i | 0 <= i < |script.commands| :: script.commands[i].writes.None?
    ensures var (after, outcome) := Ensured(st, grant, directives, script);
            var k := Failing(script.commands);
            after.config != st.config && !outcome.Applied?
            <==> && Reaches(st, grant, directives, script)
                 && match script.swap
                    case NotSwapped => false
                    case SwappedButRaised => true
                    case Swapped =>
                      if k == |script.commands| then !script.rereadable
                      else script.commands[k].exit.None? || !script.restored
  {
    ByCases(st, grant, directives, script);
    if Swaps(st, grant, directives, script) {
      var bytes := Wanted(Seen(st.config, script), directives).value;
      EndExactly(Some(bytes), script.commands);
      QuietCommands(Some(bytes), script.commands);
    }
  }

  /**
   * A rollback that reports success leaves what was read at first, or what its last command writes. That is the
   * original exactly if the command writes just this or, when it writes nothing, there was no file or it could
   * be read.
   */
  lemma RollbackRestores(st: State, grant: Grant, directives: string, script: Script)
    requires var outcome := Ensured(st, grant, directives, script).1; outcome.Failed? && outcome.rollbackOk
    ensures var (after, outcome) := Ensured(st, grant, directives, script);
      && outcome.mutated && outcome.rollbackAttempted
      && after.config == Left(Seen(st.config, script), script.reconfigure)
      && (after.config == st.config <==>
            match script.reconfigure.writes
            case Some(written) => written == st.config
            case None => st.config.None? || script.readable)
  {
    ByCases(st, grant, directives, script);
  }

  /** A file that exists but cannot be opened is removed by a rollback that reports success. */
  lemma RollbackRemovesUnreadable(st: State, grant: Grant, upstream: string, upstreamHost: string, code: int)
    requires st.config.Some? && Judge(st.entries, Strip(grant.jti), grant.now).Accepted? && code != 0
    ensures var failing, quiet := Command(Some(code), None), Command(Some(0), None);
            var script := Script(true, false, Swapped, [failing], true, true, quiet);
            var (after, outcome) := Ensured(st, grant, ManagedDirectives(upstream, upstreamHost), script);
            outcome == Failed(true, true, true) && after.config == None
  {
    assert Find("", BEGIN_MARKER) == -1 && Find("", END_MARKER) == -1;
  }

  /** Where there was no file and the first command breaks off, the new file stays and nothing is rolled back. */
  lemma EscapeKeepsNewFile(st: State, grant: Grant, upstream: string, upstreamHost: string, last: Command)
    requires st.config.None? && Judge(st.entries, Strip(grant.jti), grant.now).Accepted?
    ensures var script := Script(true, true, Swapped, [Command(None, None)], true, true, last);
            var directives := ManagedDirectives(upstream, upstreamHost);
            var (after, outcome) := Ensured(st, grant, directives, script);
            outcome == Escaped(true) && after.config == Some(Encode(directives))
  {
    assert Find("", BEGIN_MARKER) == -1 && Find("", END_MARKER) == -1;
    assert "" + ManagedDirectives(upstream, upstreamHost) == ManagedDirectives(upstream, upstreamHost);
  }

  /**
   * Without a change reported the file is as it was, with one exception: an error raised by a rename that took
   * effect. Where there was nothing to change the store is as it was, too.
   */
  lemma UntouchedUnlessMutated(st: State, grant: Grant, directives: string, script: Script)
    ensures var (after, outcome) := Ensured(st, grant, directives, script);
      && (outcome.Unchanged? ==> after == st)
      && (outcome.Refused? || (outcome.Failed? && !outcome.mutated) ==> after.config == st.config)
      && (outcome == Escaped(false) ==>
            after.config == if Reaches(st, grant, directives, script) && script.swap.SwappedButRaised?
                            then Some(Wanted(Seen(st.config, script), directives).value) else st.config)
  {
    ByCases(st, grant, directives, script);
  }

  /**
   * How a run ends that changes nothing: unchanged if the file already is its own merge, a failure without a
   * connection or with unsound markers, an error for a file that is no text or a change that was not made, and a
   * refusal with the verdict of the store.
   */
  lemma UnmutatedExactly(st: State, grant: Grant, directives: string, script: Script)
    ensures var outcome, seen := Ensured(st, grant, directives, script).1, Seen(st.config, script);
            var text := if seen.None? then Some("") else Decode(seen.value);
            var merged := if text.None? then None else MergeManagedDirectives(text.value, directives);
            var verdict := Judge(st.entries, Strip(grant.jti), grant.now);
            var due := script.connected && merged.Some? && seen != Some(Encode(merged.value));
      && (outcome.Unchanged? <==> script.connected && merged.Some? && seen == Some(Encode(merged.value)))
      && (outcome == Failed(false, false, false) <==> !script.connected || (text.Some? && merged.None?))
      && (outcome == Escaped(false) <==>
            (script.connected && text.None?) || (due && verdict.Accepted? && !script.swap.Swapped?))
      && (outcome.Refused? <==> due && !verdict.Accepted?)
      && (outcome.Refused? ==> outcome.verdict == verdict)
  {
    ByCases(st, grant, directives, script);
  }

  /**
   * A rollback is attempted exactly when a command ends badly or the file read back is not the merge. It succeeds
   * exactly when the file is put back, or removed, and the last command ends well.
   */
  lemma RolledBackExactly(st: State, grant: Grant, directives: string, script: Script)
    requires Swaps(st, grant, directives, script)
    ensures var outcome, seen := Ensured(st, grant, directives, script).1, Seen(st.config, script);
            var written := Some(Wanted(seen, directives).value);
            var commands, k := script.commands, Failing(script.commands);
      && (outcome.Failed? <==>
            if k < |commands| then commands[k].exit.Some?
            else script.rereadable && Written(written, commands).Some? && Written(written, commands) != written)
      && (outcome.Failed? ==>
            && outcome.mutated && outcome.rollbackAttempted
            && (outcome.rollbackOk <==>
                  && script.restored && script.reconfigure.exit == Some(0)
                  && (seen.Some? || RunAll(written, commands).0.Some?)))
  {
    ByCases(st, grant, directives, script);
    EndExactly(Some(Wanted(Seen(st.config, script), directives).value), script.commands);
  }

  // ----- success with a file that could not be opened -----

  /** Around a text's block, or around where it would go, there is nothing but white space. */
  predicate NothingAround(text: string) {
    && !Corrupt(text, BEGIN_MARKER, END_MARKER)
    && Prefix(text, BEGIN_MARKER) == "" && Suffix(text, BEGIN_MARKER, END_MARKER) == ""
  }

  lemma MergedExactly(text: string, upstream: string, upstreamHost: string)
    requires '#' !in upstream && '#' !in upstreamHost
    ensures var directives := ManagedDirectives(upstream, upstreamHost);
            MergeManagedDirectives(text, directives) == Some(directives) <==> NothingAround(text)
  {
    MarkersFit();
    if !Corrupt(text, BEGIN_MARKER, END_MARKER) {
      var body := Body(upstream, upstreamHost);
      MergeJoins(text, body, BEGIN_MARKER, END_MARKER);
      JoinedLonger(
        Prefix(text, BEGIN_MARKER), Block(BEGIN_MARKER, END_MARKER, body), Suffix(text, BEGIN_MARKER, END_MARKER));
    }
  }

  lemma JoinedLonger(p: string, block: string, s: string)
    requires block != ""
    ensures Joined(p, block, s) + "\n" == block + "\n" <==> p == "" && s == ""
  {
    assert |Joined(p, block, s) + "\n"| == |Joined(p, block, s)| + 1;
    assert |block + "\n"| == |block| + 1;
  }

  /** What an absent file becomes. */
  lemma WantedFromNothing(upstream: string, upstreamHost: string)
    requires '#' !in upstream && '#' !in upstreamHost
    ensures Wanted(None, ManagedDirectives(upstream, upstreamHost))
         == Bytes(Encode(ManagedDirectives(upstream, upstreamHost)))
  {
    var directives := ManagedDirectives(upstream, upstreamHost);
    assert Find("", BEGIN_MARKER) == -1 && Find("", END_MARKER) == -1;
    MergedExactly("", upstream, upstreamHost);
    assert RStrip("") == "";
  }

  /**
   * Success leaves the merge of the file that was there exactly if the file could be read, or there was none, or it
   * was a text with nothing around its managed block.
   */
  lemma AppliedMergesFileExactly(st: State, grant: Grant, upstream: string, upstreamHost: string, script: Script)
    requires '#' !in upstream && '#' !in upstreamHost
    requires Ensured(st, grant, ManagedDirectives(upstream, upstreamHost), script).1.Applied?
    ensures var directives := ManagedDirectives(upstream, upstreamHost);
            var after := Ensured(st, grant, directives, script).0;
      && after.config.Some?
      && (Wanted(st.config, directives) == Bytes(after.config.value)
          <==> script.readable || st.config.None?
               || (Decode(st.config.value).Some? && NothingAround(Decode(st.config.value).value)))
  {
    var directives := ManagedDirectives(upstream, upstreamHost);
    AppliedExactly(st, grant, directives, script);
    WantedFromNothing(upstream, upstreamHost);
    if !script.readable && st.config.Some? && Decode(st.config.value).Some? {
      var text := Decode(st.config.value).value;
      MergedExactly(text, upstream, upstreamHost);
      DecodeEncode(directives);
      var merged := MergeManagedDirectives(text, directives);
      if merged.Some? {
        DecodeEncode(merged.value);
      }
    }
  }

  /** A file that exists but cannot be opened is replaced by the bare block, and success is reported. */
  lemma ApplyReplacesUnreadable(st: State, grant: Grant, upstream: string, upstreamHost: string, last: Command)
    requires '#' !in upstream && '#' !in upstreamHost
    requires st.config.Some? && Judge(st.entries, Strip(grant.jti), grant.now).Accepted?
    ensures var done := Command(Some(0), None);
            var script := Script(true, false, Swapped, [done, done, done], true, true, last);
            var directives := ManagedDirectives(upstream, upstreamHost);
            var (after, outcome) := Ensured(st, grant, directives, script);
            outcome == Applied && after.config == Some(Encode(directives))
  {
    var done := Command(Some(0), None);
    var commands := [done, done, done];
    WantedFromNothing(upstream, upstreamHost);
    var bytes := Encode(ManagedDirectives(upstream, upstreamHost));
    QuietCommands(Some(bytes), commands);
    EndExactly(Some(bytes), commands);
  }

  lemma {:induction false} QuietCommands(config: Config, commands: seq<Command>)
    requires forall i | 0 <= i < |commands| :: commands[i].writes.None?
    ensures RunAll(config, commands).0 == config
  {
    if commands != [] {
      QuietCommands(config, commands[1..]);
    }
  }

  /** While no command writes the file, it always is as before, or as read at first, or the merge. */
  lemma NothingInBetween(st: State, grant: Grant, directives: string, script: Script)
    requires script.reconfigure.writes.None?
    requires forall i | 0 <= i < |script.commands| :: script.commands[i].writes.None?
    ensures var after, target := Ensured(st, grant, directives, script).0, Wanted(Seen(st.config, script), directives);
      || after.config == st.config || after.config == Seen(st.config, script)
      || (target.Bytes? && after.config == Some(target.value))
  {
    var target := Wanted(Seen(st.config, script), directives);
    if target.Bytes? {
      QuietCommands(Some(target.value), script.commands);
    }
  }

  /** Running again after success finds nothing to do, and consumes no grant. */
  lemma RerunIsNoOp(
    st: State, grant: Grant, upstream: string, upstreamHost: string, script: Script, next: Grant, again: Script)
    requires '#' !in upstream && '#' !in upstreamHost && again.connected && again.readable
    requires Ensured(st, grant, ManagedDirectives(upstream, upstreamHost), script).1.Applied?
    ensures var directives := ManagedDirectives(upstream, upstreamHost);
      var after := Ensured(st, grant, directives, script).0;
      Ensured(after, next, directives, again) == (after, Unchanged)
  {
    var directives := ManagedDirectives(upstream, upstreamHost);
    var seen := Seen(st.config, script);
    AppliedExactly(st, grant, directives, script);
    var existing := if seen.None? then "" else Decode(seen.value).value;
    var merged := MergeManagedDirectives(existing, directives).value;
    MergeTwice(existing, upstream, upstreamHost, upstream, upstreamHost);
    DecodeEncode(merged);
  }

  // ----- whole histories -----

  /** One application: its grant, the upstream, and how the host behaves. */
  datatype Step = Step(grant: Grant, upstream: string, upstreamHost: string, script: Script)
  {
    function Directives(): string { ManagedDirectives(upstream, upstreamHost) }
  }

  function Apply(st: State, step: Step): State { Ensured(st, step.grant, step.Directives(), step.script).0 }

  function History(st: State, steps: seq<Step>): State
    decreases |steps|
  {
    if steps == [] then st else History(Apply(st, steps[0]), steps[1..])
  }

  /** The last application that changed the file. */
  function LastChange(st: State, steps: seq<Step>): Option<Step>
    decreases |steps|
  {
    if steps == [] then None
    else
      var after := Apply(st, steps[0]);
      var later := LastChange(after, steps[1..]);
      if later.Some? then later else if after.config != st.config then Some(steps[0]) else None
  }

  /** The file can be read, no command writes it, and the upstream has no hash sign. */
  ghost predicate Plain(step: Step) {
    && step.script.readable && step.script.reconfigure.writes.None?
    && (forall i | 0 <= i < |step.script.commands| :: step.script.commands[i].writes.None?)
    && '#' !in step.upstream && '#' !in step.upstreamHost
  }

  /** The file is the first one, or what this application makes of the first one. */
  ghost predicate IsMergeOf(config: Config, first: Config, last: Option<Step>) {
    match last
    case None => config == first
    case Some(step) =>
      var target := Wanted(first, step.Directives());
      target.Bytes? && config == Some(target.value)
  }

  /** What a change writes depends only on the first file, not on the changes in between. */
  lemma SameTarget(config: Config, first: Config, last: Option<Step>, step: Step)
    requires IsMergeOf(config, first, last) && Plain(step) && (last.Some? ==> Plain(last.value))
    requires Wanted(config, step.Directives()).Bytes?
    ensures Wanted(config, step.Directives()) == Wanted(first, step.Directives())
  {
    if last.Some? {
      var s := last.value;
      var text := if first.None? then "" else Decode(first.value).value;
      DecodeEncode(MergeManagedDirectives(text, s.Directives()).value);
      MergeTwice(text, s.upstream, s.upstreamHost, step.upstream, step.upstreamHost);
    }
  }

  lemma ChangeKeeps(st: State, first: Config, last: Option<Step>, step: Step)
    requires IsMergeOf(st.config, first, last) && Plain(step) && (last.Some? ==> Plain(last.value))
    ensures var after := Apply(st, step);
      IsMergeOf(after.config, first, if after.config != st.config then Some(step) else last)
  {
    NothingInBetween(st, step.grant, step.Directives(), step.script);
    if Apply(st, step).config != st.config {
      SameTarget(st.config, first, last, step);
    }
  }

  lemma {:induction false} HistoryKeeps(st: State, first: Config, last: Option<Step>, steps: seq<Step>)
    requires IsMergeOf(st.config, first, last) && (last.Some? ==> Plain(last.value))
    requires forall i | 0 <= i < |steps| :: Plain(steps[i])
    ensures var later := LastChange(st, steps);
      IsMergeOf(History(st, steps).config, first, if later.Some? then later else last)
    decreases |steps|
  {
    if steps != [] {
      var after := Apply(st, steps[0]);
      ChangeKeeps(st, first, last, steps[0]);
      assert forall i | 0 <= i < |steps[1..]| :: steps[1..][i] == steps[i + 1];
      HistoryKeeps(after, first, if after.config != st.config then Some(steps[0]) else last, steps[1..]);
    }
  }

  /**
   * After any history of applications, failed, rolled back, broken off or successful, the file is as it was at
   * first or the merge of the first text with the directives of the last application that changed it: nothing
   * piles up and the surrounding text does not drift.
   */
  lemma NoDrift(st: State, steps: seq<Step>)
    requires forall i | 0 <= i < |steps| :: Plain(steps[i])
    ensures IsMergeOf(History(st, steps).config, st.config, LastChange(st, steps))
  {
    HistoryKeeps(st, st.config, None, steps);
  }
}
