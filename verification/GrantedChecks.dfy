/**
 * What a granted handler has to get past before it changes anything, read off the run itself, and that it does
 * change something once it is past all of it.
 */
module GrantedChecks {
  import opened Text
  import opened ReplayStore
  import opened ApplyGrant
  import opened GrantedHandlers
  import opened LateConsumption

  /** A call without `apply`, a closed gate and a foreign risk class stop a handler; so does a check that fails. */
  ghost predicate Passing(i: Instruction, p: Process, t: Turn) {
    match i
    case DryRun => p.call.apply
    case Gates => p.call.apply ==> t.ok
    case Unchanged => t.ok
    case Preflight => t.ok
    case PlanHash => p.plan.Some? && Normal(p.call.planHash) == p.plan.value.hash
    case RiskClass => p.plan.Some? && p.claims.Some? && p.claims.value.riskClass == p.plan.value.risk
    case _ => true
  }

  lemma AdvancePasses(check: Checker, i: Instruction, p: Process, t: Turn, entries: Entries, at: nat)
    ensures var q := Execute(check, i, p, t, entries, at).process;
            q.call == p.call && (q.pc == p.pc || (q.pc == p.pc + 1 && Passing(i, p, t)))
  {
  }

  /** In turn `n` the process stood at instruction `i` and passed it. */
  ghost predicate PassedAt(check: Checker, w: World, turns: seq<Turn>, pid: nat, i: nat, n: nat) {
    && n < |turns| && turns[n].pid == pid
    && var v := Run(check, w, turns[..n]);
      && pid < |v.processes|
      && var p := v.processes[pid];
        && !p.returned && p.pc == i < |Code(p.call.handler)| && Passing(Code(p.call.handler)[i], p, turns[n])
  }

  ghost predicate Passed(check: Checker, w: World, turns: seq<Turn>, pid: nat, i: nat) {
    exists n: nat :: PassedAt(check, w, turns, pid, i, n)
  }

  ghost predicate PassedUpTo(check: Checker, w: World, turns: seq<Turn>, pid: nat, pc: nat) {
    forall i | 0 <= i < pc :: Passed(check, w, turns, pid, i)
  }

  lemma PassedStays(check: Checker, w: World, turns: seq<Turn>, t: Turn, pid: nat, i: nat)
    requires Passed(check, w, turns, pid, i)
    ensures Passed(check, w, turns + [t], pid, i)
  {
    var n: nat :| PassedAt(check, w, turns, pid, i, n);
    assert (turns + [t])[..n] == turns[..n];
    assert PassedAt(check, w, turns + [t], pid, i, n);
  }

  lemma {:induction false} PassedSoFar(check: Checker, w: World, turns: seq<Turn>, pid: nat)
    requires Initial(w) && pid < |w.processes|
    ensures var v := Run(check, w, turns);
      && |v.processes| == |w.processes| && v.processes[pid].call == w.processes[pid].call
      && PassedUpTo(check, w, turns, pid, v.processes[pid].pc)
  {
    if turns != [] {
      var before, t := turns[..|turns| - 1], turns[|turns| - 1];
      assert before + [t] == turns;
      PassedSoFar(check, w, before, pid);
      PassedNext(check, w, before, t, pid);
    }
  }

  /** A turn leaves a process where it is, or takes it past the instruction at which it stands. */
  lemma TurnMoves(check: Checker, u: World, t: Turn, pid: nat)
    requires pid < |u.processes|
    ensures var p, v := u.processes[pid], Next(check, u, t);
      && |v.processes| == |u.processes| && v.processes[pid].call == p.call
      && (v.processes[pid].pc != p.pc ==>
            && t.pid == pid && !p.returned && v.processes[pid].pc == p.pc + 1 && p.pc < |Code(p.call.handler)|
            && Passing(Code(p.call.handler)[p.pc], p, t))
  {
    var p := u.processes[pid];
    if t.pid < |u.processes| && !Finished(u.processes[t.pid]) {
      var q := u.processes[t.pid];
      AdvancePasses(check, Code(q.call.handler)[q.pc], q, t, Held(u.store), |u.calls|);
    }
  }

  lemma AllStay(check: Checker, w: World, turns: seq<Turn>, t: Turn, pid: nat, pc: nat)
    requires PassedUpTo(check, w, turns, pid, pc)
    ensures PassedUpTo(check, w, turns + [t], pid, pc)
  {
    forall i | 0 <= i < pc ensures Passed(check, w, turns + [t], pid, i) {
      PassedStays(check, w, turns, t, pid, i);
    }
  }

  lemma OneMore(check: Checker, w: World, turns: seq<Turn>, pid: nat, pc: nat)
    requires PassedUpTo(check, w, turns, pid, pc) && Passed(check, w, turns, pid, pc)
    ensures PassedUpTo(check, w, turns, pid, pc + 1)
  {
  }

  lemma PassedNext(check: Checker, w: World, before: seq<Turn>, t: Turn, pid: nat)
    requires var u := Run(check, w, before);
      pid < |u.processes| && PassedUpTo(check, w, before, pid, u.processes[pid].pc)
    ensures var u, v := Run(check, w, before), Run(check, w, before + [t]);
      && |v.processes| == |u.processes| && v.processes[pid].call == u.processes[pid].call
      && PassedUpTo(check, w, before + [t], pid, v.processes[pid].pc)
  {
    var u := Run(check, w, before);
    var pc := u.processes[pid].pc;
    RunThen(check, w, before, t);
    TurnMoves(check, u, t, pid);
    AllStay(check, w, before, t, pid, pc);
    if Next(check, u, t).processes[pid].pc != pc {
      PassesNow(check, w, before, t, pid);
      OneMore(check, w, before + [t], pid, pc);
    }
  }

  lemma PassesNow(check: Checker, w: World, before: seq<Turn>, t: Turn, pid: nat)
    requires var u := Run(check, w, before);
      && pid < |u.processes| && t.pid == pid
      && var p := u.processes[pid];
        !p.returned && p.pc < |Code(p.call.handler)| && Passing(Code(p.call.handler)[p.pc], p, t)
    ensures Passed(check, w, before + [t], pid, Run(check, w, before).processes[pid].pc)
  {
    assert (before + [t])[..|before|] == before;
    assert PassedAt(check, w, before + [t], pid, Run(check, w, before).processes[pid].pc, |before|);
  }

  // ----- what stays true of a process -----

  lemma ChecksInPlace(h: Handler)
    ensures var code := Code(h);
      && (exists i | 0 <= i < |code| - 1 :: code[i].DryRun?)
      && (exists i | 0 <= i < |code| - 1 :: code[i].Gates?)
      && (!h.TreeSync? ==> exists i | 0 <= i < |code| - 1 :: code[i].RiskClass?)
      && (forall i | 0 <= i < |code| && code[i].RiskClass? :: i > Layout(h).verify)
  {
    if h in {DnsReplace, DnsReconcile, Mailbox} {
      RecordChecks(h);
    } else if h in {FtpUser, Subdomain, Extension} {
      AccountChecks(h);
    } else {
      SiteChecks(h);
    }
  }

  lemma RecordChecks(h: Handler)
    requires h in {DnsReplace, DnsReconcile, Mailbox}
    ensures var code := Code(h);
      && (exists i | 0 <= i < |code| - 1 :: code[i].DryRun?) && (exists i | 0 <= i < |code| - 1 :: code[i].Gates?)
      && (exists i | 0 <= i < |code| - 1 :: code[i].RiskClass?)
      && (forall i | 0 <= i < |code| && code[i].RiskClass? :: i > Layout(h).verify)
  {
    var code := Code(h);
    if h.DnsReconcile? {
      assert code[1].Gates? && code[3].DryRun? && code[7].RiskClass?;
    } else if h.DnsReplace? {
      assert code[0].Gates? && code[2].DryRun? && code[6].RiskClass?;
    } else {
      assert code[3].Gates? && code[2].DryRun? && code[6].RiskClass?;
    }
  }

  lemma AccountChecks(h: Handler)
    requires h in {FtpUser, Subdomain, Extension}
    ensures var code := Code(h);
      && (exists i | 0 <= i < |code| - 1 :: code[i].DryRun?) && (exists i | 0 <= i < |code| - 1 :: code[i].Gates?)
      && (exists i | 0 <= i < |code| - 1 :: code[i].RiskClass?)
      && (forall i | 0 <= i < |code| && code[i].RiskClass? :: i > Layout(h).verify)
  {
    var code := Code(h);
    if h.FtpUser? {
      assert code[2].Gates? && code[1].DryRun? && code[5].RiskClass?;
    } else if h.Subdomain? {
      assert code[1].Gates? && code[3].DryRun? && code[6].RiskClass?;
    } else {
      assert code[4].Gates? && code[1].DryRun? && code[6].RiskClass?;
    }
  }

  lemma SiteChecks(h: Handler)
    requires h in {ReverseProxy, TreeSync, BootstrapApiKey}
    ensures var code := Code(h);
      && (exists i | 0 <= i < |code| - 1 :: code[i].DryRun?) && (exists i | 0 <= i < |code| - 1 :: code[i].Gates?)
      && (!h.TreeSync? ==> exists i | 0 <= i < |code| - 1 :: code[i].RiskClass?)
      && (forall i | 0 <= i < |code| && code[i].RiskClass? :: i > Layout(h).verify)
  {
    var code := Code(h);
    if h.ReverseProxy? {
      assert code[3].Gates? && code[2].DryRun? && code[6].RiskClass?;
    } else if h.TreeSync? {
      assert code[3].Gates? && code[2].DryRun?;
    } else {
      assert code[2].Gates? && code[1].DryRun? && code[5].RiskClass?;
    }
  }

  /** The risk classes agree once they have been compared. */
  ghost predicate SettledOn(code: seq<Instruction>, p: Process) {
    forall i | 0 <= i < p.pc && i < |code| && code[i].RiskClass? ::
      p.plan.Some? && p.claims.Some? && p.claims.value.riskClass == p.plan.value.risk
  }

  ghost predicate Settled(p: Process) { SettledOn(Code(p.call.handler), p) }

  /** A consumption was one of the process's own claims, and a change came at the end of its code. */
  ghost predicate EventFits(w: World, e: Event) {
    && e.pid < |w.processes|
    && var p := w.processes[e.pid];
      && (e.ConsumedJti? ==> p.claims == Some(e.claims) && p.pc > Layout(p.call.handler).consume)
      && (e.Mutation? ==> p.pc >= |Code(p.call.handler)| - 1)
  }

  ghost predicate AllFits(w: World) {
    && (forall pid | 0 <= pid < |w.processes| :: Settled(w.processes[pid]))
    && (forall k | 0 <= k < |w.log| :: EventFits(w, w.log[k]))
  }

  /** Only planning changes the plan, and only verifying the claims; and what an instruction logs. */
  lemma KeptBy(check: Checker, i: Instruction, p: Process, t: Turn, entries: Entries, at: nat)
    ensures var e := Execute(check, i, p, t, entries, at);
      && (e.process.plan == p.plan || i.Plan?) && (e.process.claims == p.claims || Verifies(i))
      && |e.events| <= 1
      && (e.events != [] ==>
            var v := e.events[0];
            && v.pid == t.pid
            && (v.ConsumedJti? ==> i.ConsumeJti? && e.process.claims == Some(v.claims) && e.process.pc == p.pc + 1)
            && (v.Mutation? ==> i.Mutate?))
  {
  }

  lemma SettledNext(code: seq<Instruction>, l: Places, p: Process, q: Process, t: Turn)
    requires SettledOn(code, p) && p.pc < |code| && LaidOut(code, l)
    requires forall i | 0 <= i < |code| && code[i].RiskClass? :: i > l.verify
    requires q.pc == p.pc || (q.pc == p.pc + 1 && Passing(code[p.pc], p, t))
    requires q.plan == p.plan || p.pc == l.plan
    requires q.claims == p.claims || p.pc == l.verify
    ensures SettledOn(code, q)
  {
  }

  lemma ProcessMoves(check: Checker, p: Process, t: Turn, entries: Entries, at: nat) returns (e: Effect)
    requires !Finished(p) && Settled(p)
    ensures e == Execute(check, Code(p.call.handler)[p.pc], p, t, entries, at)
    ensures var l := Layout(p.call.handler);
      && e.process.call == p.call && p.pc <= e.process.pc <= p.pc + 1 && Settled(e.process)
      && (e.process.claims == p.claims || p.pc == l.verify)
      && |e.events| <= 1
      && (e.events != [] ==>
            var v := e.events[0];
            && v.pid == t.pid
            && (v.ConsumedJti? ==> e.process.claims == Some(v.claims) && e.process.pc > l.consume)
            && (v.Mutation? ==> e.process.pc >= |Code(p.call.handler)| - 1))
  {
    var code, l := Code(p.call.handler), Layout(p.call.handler);
    var i := code[p.pc];
    LayoutHolds(p.call.handler);
    ChecksInPlace(p.call.handler);
    AdvancePasses(check, i, p, t, entries, at);
    KeptBy(check, i, p, t, entries, at);
    e := Execute(check, i, p, t, entries, at);
    SettledNext(code, l, p, e.process, t);
  }

  lemma NextFits(check: Checker, w: World, t: Turn)
    requires AllFits(w)
    ensures AllFits(Next(check, w, t))
  {
    if t.pid < |w.processes| && !Finished(w.processes[t.pid]) {
      var p := w.processes[t.pid];
      var e := ProcessMoves(check, p, t, Held(w.store), |w.calls|);
      var v := Next(check, w, t);
      LayoutHolds(p.call.handler);
      forall k | 0 <= k < |v.log| ensures EventFits(v, v.log[k]) {
        if k < |w.log| {
          assert EventFits(w, w.log[k]);
        }
      }
    }
  }

  lemma {:induction false} RunFits(check: Checker, w: World, turns: seq<Turn>)
    requires Initial(w)
    ensures AllFits(Run(check, w, turns))
  {
    if turns != [] {
      RunFits(check, w, turns[..|turns| - 1]);
      NextFits(check, Run(check, w, turns[..|turns| - 1]), turns[|turns| - 1]);
    }
  }

  // ----- no change without all checks -----

  /** Before a change its process has stood at every earlier instruction of its handler and passed it. */
  lemma EveryCheckPassed(check: Checker, w: World, turns: seq<Turn>, k: nat)
    requires Initial(w)
    requires var v := Run(check, w, turns); k < |v.log| && v.log[k].Mutation?
    ensures var v := Run(check, w, turns);
      && Changed(v, k) && v.log[k].pid < |w.processes|
      && PassedUpTo(check, w, turns, v.log[k].pid, |Code(w.processes[v.log[k].pid].call.handler)| - 1)
      && v.processes[v.log[k].pid].call == w.processes[v.log[k].pid].call
  {
    RunFits(check, w, turns);
    SameProcesses(check, w, turns);
    var v := Run(check, w, turns);
    var pid := v.log[k].pid;
    assert EventFits(v, v.log[k]);
    PassedSoFar(check, w, turns, pid);
    var pc, last := v.processes[pid].pc, |Code(w.processes[pid].call.handler)| - 1;
    assert last <= pc && PassedUpTo(check, w, turns, pid, pc);
  }

  lemma {:induction false} SameProcesses(check: Checker, w: World, turns: seq<Turn>)
    ensures |Run(check, w, turns).processes| == |w.processes|
  {
    if turns != [] {
      SameProcesses(check, w, turns[..|turns| - 1]);
    }
  }

  /** In turn `n` the process consulted the mutation switches and found them open. */
  ghost predicate GatesOpen(check: Checker, w: World, turns: seq<Turn>, pid: nat, n: nat) {
    && n < |turns| && turns[n].pid == pid && turns[n].ok
    && var v := Run(check, w, turns[..n]);
      && pid < |v.processes|
      && var p := v.processes[pid]; p.pc < |Code(p.call.handler)| && Code(p.call.handler)[p.pc].Gates?
  }

  /**
   * Every change comes from a call with `apply` set, after its switches were found open, with a grant of the plan's
   * risk class in the eight handlers that compare it.
   */
  lemma ChangesOnlyWhenAllowed(check: Checker, w: World, turns: seq<Turn>, k: nat)
    returns (c: Claims, i: nat, j: nat, n: nat)
    requires Initial(w)
    requires var v := Run(check, w, turns); k < |v.log| && v.log[k].Mutation?
    ensures var v := Run(check, w, turns);
      && Changed(v, k) && GrantUsed(check, w.store, v, k, v.log[k].pid, c, i, j)
      && var p := v.processes[v.log[k].pid];
        && p.call.apply && GatesOpen(check, w, turns, v.log[k].pid, n)
        && (!p.call.handler.TreeSync? ==> p.plan.Some? && c.riskClass == p.plan.value.risk)
  {
    EveryCheckPassed(check, w, turns, k);
    var pid := Run(check, w, turns).log[k].pid;
    n := SwitchesSeen(check, w, turns, pid, w.processes[pid].call.handler);
    c, i, j := GrantOfChange(check, w, turns, k);
    RisksAgree(check, w, turns, j, k);
  }

  lemma GrantOfChange(check: Checker, w: World, turns: seq<Turn>, k: nat) returns (c: Claims, i: nat, j: nat)
    requires Initial(w)
    requires var v := Run(check, w, turns); k < |v.log| && v.log[k].Mutation?
    ensures var v := Run(check, w, turns);
      && Changed(v, k) && GrantUsed(check, w.store, v, k, v.log[k].pid, c, i, j)
      && j < |v.log| && v.log[j].ConsumedJti? && v.log[j].pid == v.log[k].pid && v.log[j].claims == c
  {
    EveryChangeIsGranted(check, w, turns, k);
    var v := Run(check, w, turns);
    c, i, j :| GrantUsed(check, w.store, v, k, v.log[k].pid, c, i, j);
  }

  lemma RisksAgree(check: Checker, w: World, turns: seq<Turn>, j: nat, k: nat)
    requires Initial(w)
    requires var v := Run(check, w, turns);
      j < |v.log| && k < |v.log| && v.log[j].ConsumedJti? && v.log[k].Mutation? && v.log[j].pid == v.log[k].pid
    ensures var v := Run(check, w, turns);
      && v.log[k].pid < |v.processes|
      && var p := v.processes[v.log[k].pid];
        !p.call.handler.TreeSync? ==> p.plan.Some? && v.log[j].claims.riskClass == p.plan.value.risk
  {
    RunFits(check, w, turns);
    var v := Run(check, w, turns);
    assert EventFits(v, v.log[k]) && EventFits(v, v.log[j]);
    var p := v.processes[v.log[k].pid];
    ChecksInPlace(p.call.handler);
    if !p.call.handler.TreeSync? {
      var i :| 0 <= i < |Code(p.call.handler)| - 1 && Code(p.call.handler)[i].RiskClass?;
      assert Settled(p);
    }
  }

  lemma PassedCall(check: Checker, w: World, turns: seq<Turn>, pid: nat, i: nat) returns (n: nat)
    requires Initial(w) && pid < |w.processes| && Passed(check, w, turns, pid, i)
    ensures PassedAt(check, w, turns, pid, i, n)
    ensures Run(check, w, turns[..n]).processes[pid].call == w.processes[pid].call
  {
    n :| PassedAt(check, w, turns, pid, i, n);
    PassedSoFar(check, w, turns[..n], pid);
  }

  lemma SwitchesSeen(check: Checker, w: World, turns: seq<Turn>, pid: nat, h: Handler) returns (n: nat)
    requires Initial(w) && pid < |w.processes| && w.processes[pid].call.handler == h
    requires PassedUpTo(check, w, turns, pid, |Code(h)| - 1)
    ensures w.processes[pid].call.apply && GatesOpen(check, w, turns, pid, n)
  {
    ChecksInPlace(h);
    var code := Code(h);
    var a :| 0 <= a < |code| - 1 && code[a].DryRun?;
    var b :| 0 <= b < |code| - 1 && code[b].Gates?;
    var m := PassedCall(check, w, turns, pid, a);
    AppliesThere(check, w, turns, pid, a, m, code);
    n := PassedCall(check, w, turns, pid, b);
    OpenThere(check, w, turns, pid, b, n, code);
  }

  lemma AppliesThere(
    check: Checker, w: World, turns: seq<Turn>, pid: nat, a: nat, n: nat, code: seq<Instruction>)
    requires pid < |w.processes| && code == Code(w.processes[pid].call.handler) && a < |code| && code[a].DryRun?
    requires PassedAt(check, w, turns, pid, a, n)
    requires Run(check, w, turns[..n]).processes[pid].call == w.processes[pid].call
    ensures w.processes[pid].call.apply
  {
  }

  lemma OpenThere(
    check: Checker, w: World, turns: seq<Turn>, pid: nat, b: nat, n: nat, code: seq<Instruction>)
    requires pid < |w.processes| && code == Code(w.processes[pid].call.handler) && b < |code| && code[b].Gates?
    requires PassedAt(check, w, turns, pid, b, n)
    requires Run(check, w, turns[..n]).processes[pid].call == w.processes[pid].call && w.processes[pid].call.apply
    ensures GatesOpen(check, w, turns, pid, n)
  {
  }

  // ----- a check that fails -----

  /** The instruction does not let the process go on: a check fails, the grant does not verify, or the store refuses. */
  ghost predicate Stopping(check: Checker, i: Instruction, p: Process, t: Turn, entries: Entries) {
    match i
    case VerifyGrant => p.plan.Some? ==> check.verify(p.call.token, Wanted(p), t.now).Invalid?
    case VerifySupplied => check.verify(p.call.token, WantedBySupplied(p), t.now).Invalid?
    case ConsumeJti =>
      p.claims.Some? && p.clock.Some? ==> !Judge(entries, Strip(p.claims.value.jti), p.clock.value).Accepted?
    case _ => !Passing(i, p, t)
  }

  /** In this turn the process stands at an instruction that stops it. */
  ghost predicate StopsAt(check: Checker, u: World, t: Turn) {
    && t.pid < |u.processes| && !Finished(u.processes[t.pid])
    && var p := u.processes[t.pid]; Stopping(check, Code(p.call.handler)[p.pc], p, t, Held(u.store))
  }

  ghost predicate Silent(log: seq<Event>, pid: nat, from: nat) {
    forall k | from <= k < |log| :: log[k].pid != pid
  }

  lemma StoppedReturns(check: Checker, i: Instruction, p: Process, t: Turn, entries: Entries, at: nat)
    requires Stopping(check, i, p, t, entries)
    ensures var e := Execute(check, i, p, t, entries, at); e.process.returned && e.events == []
  {
  }

  lemma StopsNow(check: Checker, u: World, t: Turn)
    requires StopsAt(check, u, t)
    ensures var v := Next(check, u, t);
      |v.processes| == |u.processes| && v.processes[t.pid].returned && v.log == u.log
  {
    var p := u.processes[t.pid];
    StoppedReturns(check, Code(p.call.handler)[p.pc], p, t, Held(u.store), |u.calls|);
  }

  lemma EventsOfTurn(check: Checker, i: Instruction, p: Process, t: Turn, entries: Entries, at: nat)
    ensures forall e | e in Execute(check, i, p, t, entries, at).events :: e.pid == t.pid
  {
  }

  lemma StaysReturned(check: Checker, u: World, t: Turn, pid: nat, from: nat)
    requires pid < |u.processes| && u.processes[pid].returned && Silent(u.log, pid, from)
    ensures var v := Next(check, u, t);
      pid < |v.processes| && v.processes[pid].returned && Silent(v.log, pid, from)
  {
    if t.pid < |u.processes| && !Finished(u.processes[t.pid]) {
      var p := u.processes[t.pid];
      var i := Code(p.call.handler)[p.pc];
      EventsOfTurn(check, i, p, t, Held(u.store), |u.calls|);
      var v := NextIs(check, u, t, i);
    }
  }

  lemma {:induction false} ReturnedForGood(check: Checker, u: World, turns: seq<Turn>, pid: nat, from: nat)
    requires pid < |u.processes| && u.processes[pid].returned && Silent(u.log, pid, from)
    ensures var v := Run(check, u, turns);
      pid < |v.processes| && v.processes[pid].returned && Silent(v.log, pid, from)
  {
    if turns != [] {
      var before, t := turns[..|turns| - 1], turns[|turns| - 1];
      ReturnedForGood(check, u, before, pid, from);
      StaysReturned(check, Run(check, u, before), t, pid, from);
    }
  }

  /** A call that fails one check is over: whatever happens later, nothing is verified, consumed or changed by it. */
  lemma FailureIsFinal(check: Checker, w: World, before: seq<Turn>, t: Turn, later: seq<Turn>)
    requires StopsAt(check, Run(check, w, before), t)
    ensures var u, v := Run(check, w, before), Run(check, w, before + [t] + later);
      Silent(v.log, t.pid, |u.log|)
  {
    var u := Run(check, w, before);
    RunThen(check, w, before, t);
    StopsNow(check, u, t);
    RunMore(check, w, before + [t], later);
    ReturnedForGood(check, Next(check, u, t), later, t.pid, |u.log|);
  }

  // ----- a change once all checks pass -----

  /** What a call needs to get through: its own plan's hash, a token that verifies, and the plan's risk class. */
  ghost predicate AllInOrder(check: Checker, call: Invocation, plan: PlanInfo, c: Claims, now: real) {
    var p := Fresh(call).(plan := Some(plan));
    && call.apply && Normal(call.planHash) == plan.hash
    && check.verify(call.token, if call.handler.TreeSync? then WantedBySupplied(p) else Wanted(p), now) == Valid(c)
    && (!call.handler.TreeSync? ==> c.riskClass == plan.risk)
  }

  /** A process that has got through its first `n` instructions. */
  ghost function Underway(l: Places, call: Invocation, plan: PlanInfo, c: Claims, now: real, n: nat): Process {
    Process(call, n, if n > l.plan then Some(plan) else None, if n > l.verify then Some(c) else None,
            if n >= l.consume then Some(now) else None, false)
  }

  lemma Proceeds(
    check: Checker, call: Invocation, plan: PlanInfo, c: Claims, t: Turn, n: nat, entries: Entries, at: nat)
    requires AllInOrder(check, call, plan, c, t.now) && t.plan == plan && t.ok
    requires n < |Code(call.handler)| - 1
    requires n <= Layout(call.handler).consume ==> Judge(entries, Strip(c.jti), t.now).Accepted?
    ensures var l := Layout(call.handler);
            var e := Execute(check, Code(call.handler)[n], Underway(l, call, plan, c, t.now, n), t, entries, at);
      && e.process == Underway(l, call, plan, c, t.now, n + 1)
      && e.call == if n == l.consume then Consume(Strip(c.jti), check.expiry(c), t.now) else Idle(t.now)
  {
    var h := call.handler;
    LayoutHolds(h);
    ChecksInPlace(h);
    HowVerified(h);
  }

  /** After `n` turns the process has got through as many instructions, and the store is untouched before its own. */
  ghost predicate Through(w: World, u: World, l: Places, pid: nat, p: Process, n: nat) {
    && pid < |u.processes| && u.processes[pid] == p && (n <= l.consume ==> u.store == w.store)
  }

  lemma StartsThrough(check: Checker, w: World, pid: nat, call: Invocation, plan: PlanInfo, c: Claims, now: real)
    requires pid < |w.processes| && w.processes[pid] == Fresh(call)
    ensures var l := Layout(call.handler);
            Through(w, Run(check, w, TurnsOf(pid, now, plan, 0)), l, pid, Underway(l, call, plan, c, now, 0), 0)
  {
    LayoutHolds(call.handler);
    assert TurnsOf(pid, now, plan, 0) == [] && Run(check, w, []) == w;
  }

  lemma StepThrough(
    check: Checker, w: World, pid: nat, call: Invocation, plan: PlanInfo, c: Claims, now: real, n: nat)
    requires AllInOrder(check, call, plan, c, now) && n < |Code(call.handler)| - 1
    requires Judge(Held(w.store), Strip(c.jti), now).Accepted?
    requires var l := Layout(call.handler);
             Through(w, Run(check, w, TurnsOf(pid, now, plan, n)), l, pid, Underway(l, call, plan, c, now, n), n)
    ensures var l := Layout(call.handler);
      Through(w, Run(check, w, TurnsOf(pid, now, plan, n + 1)), l, pid, Underway(l, call, plan, c, now, n + 1), n + 1)
  {
    var t, before := Turn(pid, now, plan, true), TurnsOf(pid, now, plan, n);
    assert TurnsOf(pid, now, plan, n + 1) == before + [t];
    RunThen(check, w, before, t);
    OneFurther(check, Run(check, w, before), t, call, plan, c, n);
  }

  lemma OneFurther(check: Checker, u: World, t: Turn, call: Invocation, plan: PlanInfo, c: Claims, n: nat)
    requires t.pid < |u.processes| && u.processes[t.pid] == Underway(Layout(call.handler), call, plan, c, t.now, n)
    requires AllInOrder(check, call, plan, c, t.now) && t.plan == plan && t.ok && n < |Code(call.handler)| - 1
    requires n <= Layout(call.handler).consume ==> Judge(Held(u.store), Strip(c.jti), t.now).Accepted?
    ensures var v, l := Next(check, u, t), Layout(call.handler);
      && |v.processes| == |u.processes| && v.processes[t.pid] == Underway(l, call, plan, c, t.now, n + 1)
      && (n < l.consume ==> v.store == u.store)
  {
    var v := NextIs(check, u, t, Code(call.handler)[n]);
    Proceeds(check, call, plan, c, t, n, Held(u.store), |u.calls|);
    IdleKeepsStore(u.store, t.now);
  }

  lemma IdleKeepsStore(s: Store, now: real)
    ensures Asked(s, Idle(now)) == s
  {
  }

  /** What holds at first and is passed on by every turn holds after any number of turns. */
  lemma {:induction false} Along(holds: nat -> bool, n: nat)
    requires holds(0)
    requires forall i: nat, j: nat {:trigger holds(i), holds(j)} | i < n && j == i + 1 && holds(i) :: holds(j)
    ensures holds(n)
  {
    if n > 0 {
      Along(holds, n - 1);
    }
  }

  lemma GetsThrough(
    check: Checker, w: World, pid: nat, call: Invocation, plan: PlanInfo, c: Claims, now: real, l: Places, n: nat)
    requires pid < |w.processes| && w.processes[pid] == Fresh(call) && AllInOrder(check, call, plan, c, now)
    requires Judge(Held(w.store), Strip(c.jti), now).Accepted?
    requires l == Layout(call.handler) && n < |Code(call.handler)|
    ensures Through(w, Run(check, w, TurnsOf(pid, now, plan, n)), l, pid, Underway(l, call, plan, c, now, n), n)
  {
    var holds: nat -> bool := (i: nat) =>
      Through(w, Run(check, w, TurnsOf(pid, now, plan, i)), l, pid, Underway(l, call, plan, c, now, i), i);
    StartsThrough(check, w, pid, call, plan, c, now);
    forall i: nat, j: nat | i < n && j == i + 1 && holds(i) ensures holds(j) {
      StepThrough(check, w, pid, call, plan, c, now, i);
    }
    Along(holds, n);
  }

  /** The log ends with this many changes by the process. */
  ghost predicate EndsWithChanges(log: seq<Event>, pid: nat, changes: nat) {
    changes <= |log| && forall k | |log| - changes <= k < |log| :: log[k] == Mutation(pid)
  }

  /** The process is at the end of its code, where this many changes by it end the log. */
  ghost predicate HasChanged(w: World, pid: nat, p: Process, changes: nat) {
    && pid < |w.processes| && w.processes[pid] == p && !p.returned
    && EndsWithChanges(w.log, pid, changes)
  }

  /** Where a handler changes things: at the end of its code. */
  ghost function ChangeAt(h: Handler): nat {
    match h
    case Extension => 10
    case DnsReconcile => 10
    case ReverseProxy => 11
    case BootstrapApiKey => 8
    case _ => 9
  }

  lemma ChangeAtEnd(h: Handler)
    ensures ChangeAt(h) == |Code(h)| - 1
  {
  }

  lemma OneChange(check: Checker, w: World, t: Turn, p: Process, changes: nat)
    requires HasChanged(w, t.pid, p, changes) && p.pc == ChangeAt(p.call.handler) && t.ok
    ensures HasChanged(Next(check, w, t), t.pid, p, changes + 1)
  {
    LayoutHolds(p.call.handler);
    ChangeAtEnd(p.call.handler);
    var v := NextIs(check, w, t, Mutate);
  }

  lemma TurnsNext(pid: nat, now: real, plan: PlanInfo, n: nat)
    ensures TurnsOf(pid, now, plan, n + 1) == TurnsOf(pid, now, plan, n) + [Turn(pid, now, plan, true)]
  {
  }

  lemma ChangesNext(
    check: Checker, w: World, pid: nat, now: real, plan: PlanInfo, n: nat, changes: nat, p: Process)
    requires p.pc == ChangeAt(p.call.handler)
    requires HasChanged(Run(check, w, TurnsOf(pid, now, plan, n)), pid, p, changes)
    ensures HasChanged(Run(check, w, TurnsOf(pid, now, plan, n + 1)), pid, p, changes + 1)
  {
    var t, before := Turn(pid, now, plan, true), TurnsOf(pid, now, plan, n);
    TurnsNext(pid, now, plan, n);
    RunThen(check, w, before, t);
    OneChange(check, Run(check, w, before), t, p, changes);
  }

  /** In this course of worlds each step is one more change by the process. */
  ghost predicate ChangesEachStep(at: nat -> World, pid: nat, p: Process) {
    forall m: nat, n: nat, k: nat {:trigger HasChanged(at(m), pid, p, k), at(n)} ::
      n == m + 1 && HasChanged(at(m), pid, p, k) ==> HasChanged(at(n), pid, p, k + 1)
  }

  lemma ChangesOn(at: nat -> World, pid: nat, n: nat, changes: nat, p: Process)
    requires ChangesEachStep(at, pid, p) && HasChanged(at(n), pid, p, 0)
    ensures HasChanged(at(n + changes), pid, p, changes)
  {
    Along((k: nat) => HasChanged(at(n + k), pid, p, k), changes);
  }

  ghost function Course(check: Checker, w: World, pid: nat, now: real, plan: PlanInfo): nat -> World {
    (n: nat) => Run(check, w, TurnsOf(pid, now, plan, n))
  }

  lemma CourseChanges(check: Checker, w: World, pid: nat, now: real, plan: PlanInfo, p: Process)
    requires p.pc == ChangeAt(p.call.handler)
    ensures ChangesEachStep(Course(check, w, pid, now, plan), pid, p)
  {
    var at := Course(check, w, pid, now, plan);
    forall m: nat, n: nat, k: nat | n == m + 1 && HasChanged(at(m), pid, p, k)
      ensures HasChanged(at(n), pid, p, k + 1)
    {
      ChangesNext(check, w, pid, now, plan, m, k, p);
    }
  }

  /** The worlds in turn, from the process's start to its changes, and on. */
  lemma GetsToChange(
    check: Checker, w: World, pid: nat, call: Invocation, plan: PlanInfo, c: Claims, now: real)
    returns (at: nat -> World, p: Process)
    requires pid < |w.processes| && w.processes[pid] == Fresh(call) && AllInOrder(check, call, plan, c, now)
    requires Judge(Held(w.store), Strip(c.jti), now).Accepted?
    ensures p.pc == ChangeAt(p.call.handler) && p.call == call
    ensures at == Course(check, w, pid, now, plan) && HasChanged(at(ChangeAt(call.handler)), pid, p, 0)
  {
    ChangeAtEnd(call.handler);
    GetsThrough(check, w, pid, call, plan, c, now, Layout(call.handler), ChangeAt(call.handler));
    p := Underway(Layout(call.handler), call, plan, c, now, ChangeAt(call.handler));
    at := Course(check, w, pid, now, plan);
  }

  lemma ChangesFrom(
    check: Checker, w: World, pid: nat, now: real, plan: PlanInfo, at: nat -> World, p: Process, changes: nat)
    requires at == Course(check, w, pid, now, plan)
    requires p.pc == ChangeAt(p.call.handler) && HasChanged(at(p.pc), pid, p, 0)
    ensures HasChanged(at(p.pc + changes), pid, p, changes)
  {
    CourseChanges(check, w, pid, now, plan, p);
    ChangesOn(at, pid, p.pc, changes, p);
  }

  /** Each of the nine handlers changes things once everything is in order, as many as there are to change. */
  lemma EveryHandlerGetsThrough(
    check: Checker, w: World, pid: nat, call: Invocation, plan: PlanInfo, c: Claims, now: real, changes: nat)
    returns (turns: seq<Turn>, v: World)
    requires pid < |w.processes| && w.processes[pid] == Fresh(call) && AllInOrder(check, call, plan, c, now)
    requires Judge(Held(w.store), Strip(c.jti), now).Accepted?
    ensures turns == TurnsOf(pid, now, plan, ChangeAt(call.handler) + changes) && v == Run(check, w, turns)
    ensures EndsWithChanges(v.log, pid, changes)
  {
    var at, p := GetsToChange(check, w, pid, call, plan, c, now);
    ChangesFrom(check, w, pid, now, plan, at, p, changes);
    turns, v := OfCourse(check, w, pid, now, plan, at, p.pc + changes);
  }

  lemma OfCourse(
    check: Checker, w: World, pid: nat, now: real, plan: PlanInfo, at: nat -> World, n: nat)
    returns (turns: seq<Turn>, v: World)
    requires at == Course(check, w, pid, now, plan)
    ensures turns == TurnsOf(pid, now, plan, n) && v == at(n) == Run(check, w, turns)
  {
    turns, v := TurnsOf(pid, now, plan, n), at(n);
  }
}
