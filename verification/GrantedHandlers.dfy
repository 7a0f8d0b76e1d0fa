/**
 * The granted handlers as processes that interleave on one replay store.
 *
 * Each handler is the list of its checks and actions in source order. A turn executes one of them, at its
 * own instant, so a handler reads the clock anew for verification and for consumption.
 */
module GrantedHandlers {
  import opened Text
  import opened ReplayStore
  import opened ApplyGrant

  /** Hexadecimal digests in lower case, as every plan hash is. */
  predicate IsDigest(s: string) {
    s != "" && forall c | c in s :: '0' <= c <= '9' || 'a' <= c <= 'f'
  }

  type Digest = s: string | IsDigest(s) witness "0"

  function Normal(s: string): string { Lower(Strip(s)) }

  lemma DigestNormal(d: Digest)
    ensures Normal(d) == d
  {
    assert d[0] in d && d[|d| - 1] in d;
    StripClean(d);
    forall i | 0 <= i < |d| ensures LowerChar(d[i]) == d[i] {
      assert d[i] in d;
    }
  }

  // ----- the handlers -----

  datatype Handler =
    | DnsReplace | DnsReconcile | Mailbox | FtpUser | Subdomain | Extension | ReverseProxy | TreeSync
    | BootstrapApiKey

  datatype Instruction =
    | Plan            // recompute the plan and its hash
    | DryRun          // return the plan unless `apply` is set
    | Unchanged       // return when there is nothing to do
    | Gates           // the mutation switches, consulted only under `apply`
    | Preflight       // any other check that may return an error
    | PlanHash        // the supplied hash must equal the recomputed one
    | VerifyGrant     // expects the recomputed plan hash
    | VerifySupplied  // expects the supplied plan hash
    | RiskClass       // the claims' risk class must be the plan's
    | ReadClock       // the clock as the consumption reads it, before it takes the store's lock
    | ConsumeJti      // asks the store, with that reading
    | Mutate          // one of possibly many changing calls

  function Code(h: Handler): seq<Instruction> {
    match h
    case DnsReplace =>
      [Gates, Plan, DryRun, Unchanged, PlanHash, VerifyGrant, RiskClass, ReadClock, ConsumeJti, Mutate]
    case DnsReconcile =>
      [Preflight, Gates, Plan, DryRun, Unchanged, PlanHash, VerifyGrant, RiskClass, ReadClock, ConsumeJti, Mutate]
    case Mailbox =>
      [Plan, Unchanged, DryRun, Gates, PlanHash, VerifyGrant, RiskClass, ReadClock, ConsumeJti, Mutate]
    case FtpUser =>
      [Plan, DryRun, Gates, PlanHash, VerifyGrant, RiskClass, ReadClock, ConsumeJti, Preflight, Mutate]
    case Subdomain =>
      [Plan, Gates, Unchanged, DryRun, PlanHash, VerifyGrant, RiskClass, ReadClock, ConsumeJti, Mutate]
    case Extension =>
      [Plan, DryRun, Preflight, PlanHash, Gates, VerifyGrant, RiskClass, Preflight, ReadClock, ConsumeJti, Mutate]
    case ReverseProxy =>
      [Preflight, Plan, DryRun, Gates, PlanHash, VerifyGrant, RiskClass, Preflight, Unchanged, ReadClock, ConsumeJti,
       Mutate]
    case TreeSync =>
      [Preflight, Plan, DryRun, Gates, VerifySupplied, PlanHash, ReadClock, ConsumeJti, Preflight, Mutate]
    case BootstrapApiKey =>
      [Plan, DryRun, Gates, PlanHash, VerifyGrant, RiskClass, ReadClock, ConsumeJti, Mutate]
  }

  datatype PlanInfo = PlanInfo(hash: Digest, artifact: string, risk: string)

  /** A request; target, actor, artifact and intent pack as verification compares them. */
  datatype Invocation = Invocation(
    handler: Handler, apply: bool, planHash: string, token: string, target: string, actor: string, intentPack: string)

  datatype Process = Process(
    call: Invocation, pc: nat, plan: Option<PlanInfo>, claims: Option<Claims>, clock: Option<real>,
    returned: bool)

  datatype Event =
    | Verified(pid: nat, want: Expectation, claims: Claims, now: real)
    | ConsumedJti(pid: nat, claims: Claims, at: nat)  // `at` numbers the call on the store
    | Mutation(pid: nat)

  /** What a turn finds outside: the plan it computes, and whether a check passes or another change follows. */
  datatype Turn = Turn(pid: nat, now: real, plan: PlanInfo, ok: bool)

  datatype World = World(store: Store, processes: seq<Process>, log: seq<Event>, calls: seq<Call>)

  datatype Effect = Effect(process: Process, events: seq<Event>, call: Call)

  /** How a token is verified, and how the expiry of claims is read. */
  datatype Checker = Checker(verify: (string, Expectation, real) -> Verification, expiry: Claims -> Option<real>)

  function GrantChecker(lib: Library, keys: Secrets): Checker {
    Checker((token, want, now) => Verify(lib, keys, token, want, now), c => Expiry(lib, c))
  }

  predicate Finished(p: Process) { p.returned || p.pc >= |Code(p.call.handler)| }

  function Advance(p: Process): Process { p.(pc := p.pc + 1) }

  function Guard(p: Process, passes: bool): Process {
    if passes then Advance(p) else p.(returned := true)
  }

  function Wanted(p: Process): Expectation
    requires p.plan.Some?
  {
    Expectation(Normal(p.plan.value.hash), p.call.target, p.plan.value.artifact, p.call.actor, p.call.intentPack)
  }

  function WantedBySupplied(p: Process): Expectation {
    Expectation(Normal(p.call.planHash), p.call.target, "", p.call.actor, p.call.intentPack)
  }

  function VerifyStep(p: Process, t: Turn, want: Expectation, outcome: Verification): Effect {
    match outcome
    case Invalid(_) => Effect(p.(returned := true), [], Idle(t.now))
    case Valid(c) => Effect(Advance(p).(claims := Some(c)), [Verified(t.pid, want, c, t.now)], Idle(t.now))
  }

  function ConsumeStep(
    p: Process, t: Turn, c: Claims, expires: Option<real>, reading: real, entries: Entries, at: nat): Effect
  {
    var call := Consume(Strip(c.jti), expires, reading);
    if Judge(entries, call.key, reading).Accepted? then Effect(Advance(p), [ConsumedJti(t.pid, c, at)], call)
    else Effect(p.(returned := true), [], call)
  }

  /** One instruction; a check that misses what it needs returns. */
  function Execute(
    check: Checker, i: Instruction, p: Process, t: Turn, entries: Entries, at: nat): Effect
  {
    match i
    case Plan => Effect(Advance(p).(plan := Some(t.plan)), [], Idle(t.now))
    case DryRun => Effect(Guard(p, p.call.apply), [], Idle(t.now))
    case Unchanged => Effect(Guard(p, t.ok), [], Idle(t.now))
    case Gates => Effect(Guard(p, !p.call.apply || t.ok), [], Idle(t.now))
    case Preflight => Effect(Guard(p, t.ok), [], Idle(t.now))
    case PlanHash =>
      Effect(Guard(p, p.plan.Some? && Normal(p.call.planHash) == p.plan.value.hash), [], Idle(t.now))
    case VerifyGrant =>
      if p.plan.None? then Effect(p.(returned := true), [], Idle(t.now))
      else VerifyStep(p, t, Wanted(p), check.verify(p.call.token, Wanted(p), t.now))
    case VerifySupplied =>
      VerifyStep(p, t, WantedBySupplied(p), check.verify(p.call.token, WantedBySupplied(p), t.now))
    case RiskClass =>
      Effect(Guard(p, p.plan.Some? && p.claims.Some? && p.claims.value.riskClass == p.plan.value.risk), [], Idle(t.now))
    case ReadClock => Effect(Advance(p).(clock := Some(t.now)), [], Idle(t.now))
    case ConsumeJti =>
      if p.claims.None? || p.clock.None? then Effect(p.(returned := true), [], Idle(t.now))
      else ConsumeStep(p, t, p.claims.value, check.expiry(p.claims.value), p.clock.value, entries, at)
    case Mutate => Effect(p.(returned := !t.ok), [Mutation(t.pid)], Idle(t.now))
  }

  function Next(check: Checker, w: World, t: Turn): (v: World)
    ensures |v.calls| == |w.calls| + 1
  {
    if t.pid >= |w.processes| || Finished(w.processes[t.pid]) then w.(calls := w.calls + [Idle(t.now)])
    else
      var p := w.processes[t.pid];
      var e := Execute(check, Code(p.call.handler)[p.pc], p, t, Held(w.store), |w.calls|);
      World(Asked(w.store, e.call), w.processes[t.pid := e.process], w.log + e.events, w.calls + [e.call])
  }

  function Run(check: Checker, w: World, turns: seq<Turn>): World {
    if turns == [] then w
    else Next(check, Run(check, w, turns[..|turns| - 1]), turns[|turns| - 1])
  }

  ghost predicate Initial(w: World) {
    && w.log == [] && w.calls == []
    && forall pid | 0 <= pid < |w.processes| ::
         var p := w.processes[pid]; p.pc == 0 && p.plan == None && p.claims == None && p.clock == None && !p.returned
  }

  ghost predicate Forward(turns: seq<Turn>) {
    forall i, j | 0 <= i <= j < |turns| :: turns[i].now <= turns[j].now
  }

  // ----- the order of the checks in each handler -----

  /** Where a handler plans, compares hashes, verifies and consumes. */
  datatype Places = Places(plan: nat, hash: nat, verify: nat, consume: nat)

  ghost function Layout(h: Handler): Places {
    match h
    case DnsReplace => Places(1, 4, 5, 8)
    case DnsReconcile => Places(2, 5, 6, 9)
    case Mailbox => Places(0, 4, 5, 8)
    case FtpUser => Places(0, 3, 4, 7)
    case Subdomain => Places(0, 4, 5, 8)
    case Extension => Places(0, 3, 5, 9)
    case ReverseProxy => Places(1, 4, 5, 10)
    case TreeSync => Places(1, 5, 4, 7)
    case BootstrapApiKey => Places(0, 3, 4, 7)
  }

  predicate Verifies(i: Instruction) { i.VerifyGrant? || i.VerifySupplied? }

  ghost predicate InOrder(l: Places) {
    l.plan < l.hash < l.consume - 1 && l.plan < l.verify < l.consume - 1 && l.hash != l.verify
  }

  ghost predicate LaidOut(code: seq<Instruction>, l: Places) {
    && InOrder(l) && l.consume < |code| - 1
    && forall i | 0 <= i < |code| ::
         && (code[i].Plan? <==> i == l.plan)
         && (code[i].PlanHash? <==> i == l.hash)
         && (Verifies(code[i]) <==> i == l.verify)
         && (code[i].ReadClock? <==> i == l.consume - 1)
         && (code[i].ConsumeJti? <==> i == l.consume)
         && (code[i].Mutate? <==> i == |code| - 1)
  }

  /** Every handler plans, then compares and verifies, then consumes, each once, and changes things last. */
  lemma LayoutHolds(h: Handler)
    ensures LaidOut(Code(h), Layout(h))
  {
    if h in {DnsReplace, DnsReconcile, Mailbox} {
      LayoutOfRecords(h);
    } else if h in {FtpUser, Subdomain, Extension} {
      LayoutOfAccounts(h);
    } else {
      LayoutOfSites(h);
    }
  }

  lemma LayoutOfRecords(h: Handler)
    requires h in {DnsReplace, DnsReconcile, Mailbox}
    ensures LaidOut(Code(h), Layout(h))
  {
  }

  lemma LayoutOfAccounts(h: Handler)
    requires h in {FtpUser, Subdomain, Extension}
    ensures LaidOut(Code(h), Layout(h))
  {
  }

  lemma LayoutOfSites(h: Handler)
    requires h in {ReverseProxy, TreeSync, BootstrapApiKey}
    ensures LaidOut(Code(h), Layout(h))
  {
  }

  lemma HowVerified(h: Handler)
    requires Layout(h).verify < |Code(h)|
    ensures Code(h)[Layout(h).verify].VerifySupplied? <==> h.TreeSync?
    ensures forall i | 0 <= i < |Code(h)| && Code(h)[i].RiskClass? :: !h.TreeSync?
  {
  }

  // ----- what every step keeps -----

  ghost predicate VerifiedBefore(log: seq<Event>, n: int, pid: nat, want: Expectation, c: Claims) {
    exists i, now :: 0 <= i < n <= |log| && log[i] == Verified(pid, want, c, now)
  }

  /** Within the first `n` events the process verified these claims and then consumed their identifier. */
  ghost predicate AuthorisedBefore(log: seq<Event>, n: int, pid: nat, want: Expectation, c: Claims) {
    exists j, at :: 0 <= j < n <= |log| && log[j] == ConsumedJti(pid, c, at) && VerifiedBefore(log, j, pid, want, c)
  }

  ghost predicate Bound(p: Process, want: Expectation) {
    && p.plan.Some?
    && want.planHash == p.plan.value.hash == Normal(p.call.planHash)
    && want.target == p.call.target && want.actor == p.call.actor && want.intentPack == p.call.intentPack
    && want.artifactSha256 == if p.call.handler.TreeSync? then "" else p.plan.value.artifact
  }

  ghost predicate ProcessInvariant(l: Places, log: seq<Event>, pid: nat, p: Process) {
    && (p.pc > l.plan <==> p.plan.Some?)
    && (p.pc > l.hash ==> p.plan.Some? && Normal(p.call.planHash) == p.plan.value.hash)
    && (p.pc > l.verify ==> p.claims.Some? && exists want :: VerifiedAs(log, pid, p, want))
    && (p.pc >= l.consume ==> p.clock.Some?)
    && (p.pc > l.consume ==> p.claims.Some? && exists want :: ConsumedAs(log, pid, p, want))
  }

  /** The expectation was the recomputed plan, or for one handler the supplied hash. */
  ghost predicate Expected(p: Process, want: Expectation) {
    p.plan.Some? && want == if p.call.handler.TreeSync? then WantedBySupplied(p) else Wanted(p)
  }

  ghost predicate VerifiedAs(log: seq<Event>, pid: nat, p: Process, want: Expectation)
    requires p.claims.Some?
  {
    Expected(p, want) && VerifiedBefore(log, |log|, pid, want, p.claims.value)
  }

  ghost predicate ConsumedAs(log: seq<Event>, pid: nat, p: Process, want: Expectation)
    requires p.claims.Some?
  {
    Bound(p, want) && AuthorisedBefore(log, |log|, pid, want, p.claims.value)
  }

  ghost predicate MutationsAuthorised(w: World) {
    forall k | 0 <= k < |w.log| && w.log[k].Mutation? :: MutationAuthorised(w, k)
  }

  /**
   * Before change `k` the same invocation verified a grant against the plan hash it recomputed itself and
   * consumed the grant's identifier.
   */
  ghost predicate MutationAuthorised(w: World, k: nat)
    requires k < |w.log| && w.log[k].Mutation?
  {
    var pid := w.log[k].pid;
    && pid < |w.processes|
    && exists want, c :: Bound(w.processes[pid], want) && AuthorisedBefore(w.log, k, pid, want, c)
  }

  ghost predicate EventHolds(check: Checker, initial: Store, w: World, e: Event) {
    && e.pid < |w.processes|
    && (e.Verified? ==> check.verify(w.processes[e.pid].call.token, e.want, e.now) == Valid(e.claims))
    && (e.ConsumedJti? ==>
          && AcceptedAt(initial, w.calls, e.at)
          && w.calls[e.at].key == Strip(e.claims.jti) && w.calls[e.at].expires == check.expiry(e.claims))
  }

  /** Consumptions are logged in the order in which the store was asked. */
  ghost predicate AskedInOrder(log: seq<Event>) {
    forall i, j | 0 <= i < j < |log| && log[i].ConsumedJti? && log[j].ConsumedJti? :: log[i].at < log[j].at
  }

  ghost predicate Invariant(check: Checker, initial: Store, w: World) {
    && w.store == StoreBefore(initial, w.calls, |w.calls|)
    && (forall pid | 0 <= pid < |w.processes| ::
         ProcessInvariant(Layout(w.processes[pid].call.handler), w.log, pid, w.processes[pid]))
    && (forall k | 0 <= k < |w.log| :: EventHolds(check, initial, w, w.log[k]))
    && MutationsAuthorised(w) && AskedInOrder(w.log)
  }

  lemma GrownLog(log: seq<Event>, more: seq<Event>, n: int, pid: nat, want: Expectation, c: Claims)
    requires n <= |log|
    ensures VerifiedBefore(log, n, pid, want, c) ==> VerifiedBefore(log + more, n, pid, want, c)
    ensures VerifiedBefore(log, n, pid, want, c) ==> VerifiedBefore(log + more, |log + more|, pid, want, c)
  {
    if i, now :| 0 <= i < n <= |log| && log[i] == Verified(pid, want, c, now) {
      assert (log + more)[i] == Verified(pid, want, c, now);
    }
  }

  lemma GrownAuthority(log: seq<Event>, more: seq<Event>, n: int, pid: nat, want: Expectation, c: Claims)
    requires n <= |log|
    ensures AuthorisedBefore(log, n, pid, want, c) ==> AuthorisedBefore(log + more, n, pid, want, c)
    ensures AuthorisedBefore(log, n, pid, want, c) ==> AuthorisedBefore(log + more, |log + more|, pid, want, c)
  {
    if j, at :| 0 <= j < n <= |log| && log[j] == ConsumedJti(pid, c, at) && VerifiedBefore(log, j, pid, want, c) {
      GrownLog(log, more, j, pid, want, c);
      assert (log + more)[j] == ConsumedJti(pid, c, at);
    }
  }

  /** A process that does not run keeps its invariant when others log events. */
  lemma ProcessKept(l: Places, log: seq<Event>, more: seq<Event>, pid: nat, p: Process)
    requires ProcessInvariant(l, log, pid, p)
    ensures ProcessInvariant(l, log + more, pid, p)
  {
    if p.pc > l.verify {
      var want :| VerifiedAs(log, pid, p, want);
      GrownLog(log, more, |log|, pid, want, p.claims.value);
      assert VerifiedAs(log + more, pid, p, want);
    }
    if p.pc > l.consume {
      var want :| ConsumedAs(log, pid, p, want);
      GrownAuthority(log, more, |log|, pid, want, p.claims.value);
      assert ConsumedAs(log + more, pid, p, want);
    }
  }

  lemma VerifyKeeps(
    l: Places, log: seq<Event>, p: Process, t: Turn, want: Expectation, outcome: Verification)
    requires InOrder(l) && ProcessInvariant(l, log, t.pid, p) && p.pc == l.verify
    requires Expected(p, want)
    ensures var e := VerifyStep(p, t, want, outcome); ProcessInvariant(l, log + e.events, t.pid, e.process)
  {
    var e := VerifyStep(p, t, want, outcome);
    ProcessKept(l, log, e.events, t.pid, p);
    if e.events != [] {
      VerifiedNow(log, e.events[0], t.pid, want, e.process);
    }
  }

  lemma VerifiedNow(log: seq<Event>, e: Event, pid: nat, want: Expectation, p: Process)
    requires e.Verified? && e.pid == pid && e.want == want && p.claims == Some(e.claims) && Expected(p, want)
    ensures VerifiedAs(log + [e], pid, p, want)
  {
    assert (log + [e])[|log|] == Verified(pid, want, e.claims, e.now);
  }

  lemma ConsumeKeeps(
    l: Places, log: seq<Event>, p: Process, t: Turn, c: Claims, expires: Option<real>, reading: real,
    entries: Entries, at: nat)
    requires InOrder(l) && ProcessInvariant(l, log, t.pid, p) && p.pc == l.consume && p.claims == Some(c)
    ensures var e := ConsumeStep(p, t, c, expires, reading, entries, at);
            ProcessInvariant(l, log + e.events, t.pid, e.process)
  {
    var e := ConsumeStep(p, t, c, expires, reading, entries, at);
    ProcessKept(l, log, e.events, t.pid, p);
    if e.events != [] {
      ConsumedNow(log, e.events[0], t.pid, p);
      assert log + e.events == log + [e.events[0]];
    }
    SameEvidence(log + e.events, t.pid, p, e.process);
  }

  /** Evidence depends on a process only through its request, plan and claims. */
  lemma SameEvidence(log: seq<Event>, pid: nat, p: Process, q: Process)
    requires p.claims.Some? && q.call == p.call && q.plan == p.plan && q.claims == p.claims
    ensures (exists want :: VerifiedAs(log, pid, p, want)) ==> exists want :: VerifiedAs(log, pid, q, want)
    ensures (exists want :: ConsumedAs(log, pid, p, want)) ==> exists want :: ConsumedAs(log, pid, q, want)
  {
    if want :| VerifiedAs(log, pid, p, want) {
      assert VerifiedAs(log, pid, q, want);
    }
    if want :| ConsumedAs(log, pid, p, want) {
      assert ConsumedAs(log, pid, q, want);
    }
  }

  lemma ConsumedNow(log: seq<Event>, e: Event, pid: nat, p: Process)
    requires p.claims.Some? && e.ConsumedJti? && e.pid == pid && e.claims == p.claims.value
    requires p.plan.Some? && Normal(p.call.planHash) == p.plan.value.hash
    requires exists want :: VerifiedAs(log, pid, p, want)
    ensures exists want :: ConsumedAs(log + [e], pid, p, want)
  {
    var want :| VerifiedAs(log, pid, p, want);
    DigestNormal(p.plan.value.hash);
    GrownLog(log, [e], |log|, pid, want, e.claims);
    assert (log + [e])[|log|] == ConsumedJti(pid, e.claims, e.at);
    assert ConsumedAs(log + [e], pid, p, want);
  }

  lemma ExecuteKeeps(
    l: Places, code: seq<Instruction>, check: Checker, log: seq<Event>, p: Process, t: Turn,
    entries: Entries, at: nat)
    requires LaidOut(code, l) && p.pc < |code| && ProcessInvariant(l, log, t.pid, p)
    requires code[l.verify].VerifySupplied? <==> p.call.handler.TreeSync?
    ensures var e := Execute(check, code[p.pc], p, t, entries, at);
            ProcessInvariant(l, log + e.events, t.pid, e.process)
  {
    var i := code[p.pc];
    if p.pc == l.verify {
      var want := if i.VerifyGrant? then Wanted(p) else WantedBySupplied(p);
      VerifyKeeps(l, log, p, t, want, check.verify(p.call.token, want, t.now));
    } else if p.pc == l.consume {
      ConsumeKeeps(l, log, p, t, p.claims.value, check.expiry(p.claims.value), p.clock.value, entries, at);
    } else {
      var e := OtherShape(check, i, p, t, entries, at);
      ProcessKept(l, log, e.events, t.pid, p);
      OtherKeeps(l, log + e.events, t.pid, p, e.process);
    }
  }

  lemma OtherShape(check: Checker, i: Instruction, p: Process, t: Turn, entries: Entries, at: nat)
    returns (e: Effect)
    requires !Verifies(i) && !i.ConsumeJti?
    ensures e == Execute(check, i, p, t, entries, at)
    ensures e.process.call == p.call && e.process.claims == p.claims
    ensures p.pc <= e.process.pc <= p.pc + 1
    ensures i.Plan? ==> e.process.plan.Some? && e.process.pc == p.pc + 1
    ensures !i.Plan? ==> e.process.plan == p.plan
    ensures if i.ReadClock? then e.process.clock.Some? else e.process.clock == p.clock
    ensures i.PlanHash? && e.process.pc == p.pc + 1 ==>
              p.plan.Some? && Normal(p.call.planHash) == p.plan.value.hash
    ensures e.events == if i.Mutate? then [Mutation(t.pid)] else []
    ensures e.call == Idle(t.now)
  {
    e := Execute(check, i, p, t, entries, at);
  }

  /** Instructions that neither verify nor consume leave the evidence as it is. */
  lemma OtherKeeps(l: Places, log: seq<Event>, pid: nat, p: Process, q: Process)
    requires InOrder(l) && ProcessInvariant(l, log, pid, p)
    requires p.pc != l.verify && p.pc != l.consume
    requires q.call == p.call && q.claims == p.claims && p.pc <= q.pc <= p.pc + 1
    requires q.plan == p.plan || p.pc == l.plan
    requires q.pc > l.plan <==> q.plan.Some?
    requires p.pc == l.hash && q.pc == p.pc + 1 ==>
               q.plan.Some? && Normal(q.call.planHash) == q.plan.value.hash
    requires if p.pc == l.consume - 1 then q.clock.Some? else q.clock == p.clock
    ensures ProcessInvariant(l, log, pid, q)
  {
    if q.pc > l.verify {
      SameEvidence(log, pid, p, q);
    }
  }

  /** A change happens only at the end of the code, when everything before it has been done. */
  lemma MutateAuthorised(l: Places, code: seq<Instruction>, log: seq<Event>, p: Process, pid: nat)
    requires LaidOut(code, l) && ProcessInvariant(l, log, pid, p) && p.pc < |code| && code[p.pc].Mutate?
    ensures exists want, c :: Bound(p, want) && AuthorisedBefore(log, |log|, pid, want, c)
  {
    var want :| ConsumedAs(log, pid, p, want);
    assert Bound(p, want) && AuthorisedBefore(log, |log|, pid, want, p.claims.value);
  }

  lemma StoreBeforePrefix(s: Store, calls: seq<Call>, more: seq<Call>, n: nat)
    requires n <= |calls|
    ensures StoreBefore(s, calls + more, n) == StoreBefore(s, calls, n)
  {
    if n > 0 {
      StoreBeforePrefix(s, calls, more, n - 1);
    }
  }

  lemma AcceptedAtPrefix(s: Store, calls: seq<Call>, more: seq<Call>, i: nat)
    requires AcceptedAt(s, calls, i)
    ensures AcceptedAt(s, calls + more, i) && (calls + more)[i] == calls[i]
  {
    StoreBeforePrefix(s, calls, more, i);
  }

  /** What a single instruction may log, and what it then asked of the store. */
  lemma Logged(check: Checker, i: Instruction, p: Process, t: Turn, entries: Entries, at: nat)
    returns (e: Effect)
    ensures e == Execute(check, i, p, t, entries, at) && |e.events| <= 1
    ensures e.process.call == p.call && (i.Plan? || e.process.plan == p.plan)
    ensures e.call.now == t.now || p.clock == Some(e.call.now)
    ensures e.process.clock == p.clock || e.process.clock == Some(t.now)
    ensures e.events != [] ==>
      var v := e.events[0];
      && v.pid == t.pid
      && (v.Verified? ==> check.verify(p.call.token, v.want, v.now) == Valid(v.claims))
      && (v.ConsumedJti? ==>
            && v.at == at && e.call.Consume? && Judge(entries, e.call.key, e.call.now).Accepted?
            && e.call.key == Strip(v.claims.jti) && e.call.expires == check.expiry(v.claims))
      && (v.Mutation? ==> i.Mutate?)
  {
    e := Execute(check, i, p, t, entries, at);
  }

  lemma StoreGrows(initial: Store, calls: seq<Call>, call: Call)
    ensures StoreBefore(initial, calls + [call], |calls| + 1) == Asked(StoreBefore(initial, calls, |calls|), call)
  {
    StoreBeforePrefix(initial, calls, [call], |calls|);
  }

  lemma AcceptedNow(initial: Store, calls: seq<Call>, call: Call)
    requires call.Consume? && Judge(Held(StoreBefore(initial, calls, |calls|)), call.key, call.now).Accepted?
    ensures AcceptedAt(initial, calls + [call], |calls|)
  {
    StoreBeforePrefix(initial, calls, [call], |calls|);
  }

  /** Events stay true when the processes keep their requests and the store is asked again. */
  lemma EventStays(check: Checker, initial: Store, w: World, v: World, e: Event)
    requires EventHolds(check, initial, w, e)
    requires |v.processes| == |w.processes| && v.processes[e.pid].call == w.processes[e.pid].call
    requires w.calls <= v.calls
    ensures EventHolds(check, initial, v, e)
  {
    if e.ConsumedJti? {
      var more := v.calls[|w.calls|..];
      assert v.calls == w.calls + more;
      AcceptedAtPrefix(initial, w.calls, more, e.at);
    }
  }

  lemma MutationStays(w: World, v: World, k: nat)
    requires k < |w.log| && w.log[k].Mutation? && MutationAuthorised(w, k)
    requires w.log <= v.log && |v.processes| == |w.processes|
    requires var pid := w.log[k].pid;
      && v.processes[pid].call == w.processes[pid].call
      && (w.processes[pid].plan.Some? ==> v.processes[pid].plan == w.processes[pid].plan)
    ensures v.log[k] == w.log[k] && MutationAuthorised(v, k)
  {
    var pid := w.log[k].pid;
    var want, c :| Bound(w.processes[pid], want) && AuthorisedBefore(w.log, k, pid, want, c);
    var more := v.log[|w.log|..];
    assert v.log == w.log + more;
    GrownAuthority(w.log, more, k, pid, want, c);
    assert Bound(v.processes[pid], want) && AuthorisedBefore(v.log, k, pid, want, c);
  }

  /** What a turn of an unfinished process changes. */
  lemma NextShape(check: Checker, initial: Store, w: World, t: Turn) returns (p: Process, e: Effect)
    requires Invariant(check, initial, w) && t.pid < |w.processes| && !Finished(w.processes[t.pid])
    ensures p == w.processes[t.pid]
    ensures Next(check, w, t)
         == World(Asked(w.store, e.call), w.processes[t.pid := e.process], w.log + e.events, w.calls + [e.call])
    ensures e.process.call == p.call && (p.plan.Some? ==> e.process.plan == p.plan)
    ensures ProcessInvariant(Layout(p.call.handler), w.log + e.events, t.pid, e.process)
    ensures |e.events| <= 1
    ensures e.events != [] ==>
      && EventHolds(check, initial, Next(check, w, t), e.events[0])
      && (e.events[0].Mutation? ==>
            && e.events[0].pid == t.pid && e.process.plan == p.plan
            && exists want, c :: Bound(p, want) && AuthorisedBefore(w.log, |w.log|, t.pid, want, c))
      && (e.events[0].ConsumedJti? ==> e.events[0].at == |w.calls|)
  {
    p := w.processes[t.pid];
    var code, l := Code(p.call.handler), Layout(p.call.handler);
    LayoutHolds(p.call.handler);
    HowVerified(p.call.handler);
    ExecuteKeeps(l, code, check, w.log, p, t, Held(w.store), |w.calls|);
    e := Logged(check, code[p.pc], p, t, Held(w.store), |w.calls|);
    if e.events != [] && e.events[0].Mutation? {
      MutateAuthorised(l, code, w.log, p, t.pid);
    } else if e.events != [] && e.events[0].ConsumedJti? {
      AcceptedNow(initial, w.calls, e.call);
    }
  }

  lemma TurnKeeps(check: Checker, initial: Store, w: World, t: Turn)
    requires Invariant(check, initial, w)
    ensures Invariant(check, initial, Next(check, w, t))
  {
    if t.pid >= |w.processes| || Finished(w.processes[t.pid]) {
      IdleKeeps(check, initial, w, w.(calls := w.calls + [Idle(t.now)]), t.now);
    } else {
      var p, e := NextShape(check, initial, w, t);
      StepKeeps(check, initial, w, Next(check, w, t), t, p, e);
    }
  }

  lemma IdleKeeps(check: Checker, initial: Store, w: World, v: World, now: real)
    requires Invariant(check, initial, w) && v == w.(calls := w.calls + [Idle(now)])
    ensures Invariant(check, initial, v)
  {
    StoreGrows(initial, w.calls, Idle(now));
    EventsStay(check, initial, w, v, []);
    forall k | 0 <= k < |v.log| && v.log[k].Mutation? ensures MutationAuthorised(v, k) {
      MutationStays(w, v, k);
    }
  }

  lemma StepKeeps(check: Checker, initial: Store, w: World, v: World, t: Turn, p: Process, e: Effect)
    requires Invariant(check, initial, w) && t.pid < |w.processes| && p == w.processes[t.pid]
    requires v == World(
      Asked(w.store, e.call), w.processes[t.pid := e.process], w.log + e.events, w.calls + [e.call])
    requires e.process.call == p.call && (p.plan.Some? ==> e.process.plan == p.plan)
    requires ProcessInvariant(Layout(p.call.handler), v.log, t.pid, e.process)
    requires |e.events| <= 1
    requires e.events != [] ==> EventHolds(check, initial, v, e.events[0])
    requires e.events != [] && e.events[0].Mutation? ==>
      && e.events[0].pid == t.pid && e.process.plan == p.plan
      && exists want, c :: Bound(p, want) && AuthorisedBefore(w.log, |w.log|, t.pid, want, c)
    requires e.events != [] && e.events[0].ConsumedJti? ==> e.events[0].at == |w.calls|
    ensures Invariant(check, initial, v)
  {
    StoreGrows(initial, w.calls, e.call);
    ProcessesKept(w, v, t, e);
    EventsStay(check, initial, w, v, e.events);
    ChangesStay(w, v, t, p, e);
    OrderKept(check, initial, w, e.events);
  }

  lemma ProcessesKept(w: World, v: World, t: Turn, e: Effect)
    requires forall pid | 0 <= pid < |w.processes| ::
      ProcessInvariant(Layout(w.processes[pid].call.handler), w.log, pid, w.processes[pid])
    requires t.pid < |w.processes| && v.processes == w.processes[t.pid := e.process] && v.log == w.log + e.events
    requires ProcessInvariant(Layout(e.process.call.handler), v.log, t.pid, e.process)
    ensures forall pid | 0 <= pid < |v.processes| ::
      ProcessInvariant(Layout(v.processes[pid].call.handler), v.log, pid, v.processes[pid])
  {
    forall pid | 0 <= pid < |v.processes|
      ensures ProcessInvariant(Layout(v.processes[pid].call.handler), v.log, pid, v.processes[pid])
    {
      if pid != t.pid {
        ProcessKept(Layout(w.processes[pid].call.handler), w.log, e.events, pid, w.processes[pid]);
      }
    }
  }

  lemma EventsStay(check: Checker, initial: Store, w: World, v: World, events: seq<Event>)
    requires forall k | 0 <= k < |w.log| :: EventHolds(check, initial, w, w.log[k])
    requires v.log == w.log + events && w.calls <= v.calls && |v.processes| == |w.processes|
    requires forall pid | 0 <= pid < |w.processes| :: v.processes[pid].call == w.processes[pid].call
    requires |events| <= 1 && (events != [] ==> EventHolds(check, initial, v, events[0]))
    ensures forall k | 0 <= k < |v.log| :: EventHolds(check, initial, v, v.log[k])
  {
    forall k | 0 <= k < |v.log| ensures EventHolds(check, initial, v, v.log[k]) {
      if k < |w.log| {
        EventStays(check, initial, w, v, w.log[k]);
      }
    }
  }

  lemma OrderKept(check: Checker, initial: Store, w: World, events: seq<Event>)
    requires AskedInOrder(w.log) && forall k | 0 <= k < |w.log| :: EventHolds(check, initial, w, w.log[k])
    requires |events| <= 1 && (events != [] && events[0].ConsumedJti? ==> events[0].at == |w.calls|)
    ensures AskedInOrder(w.log + events)
  {
  }

  lemma ChangesStay(w: World, v: World, t: Turn, p: Process, e: Effect)
    requires MutationsAuthorised(w) && t.pid < |w.processes| && p == w.processes[t.pid]
    requires v.processes == w.processes[t.pid := e.process] && v.log == w.log + e.events
    requires e.process.call == p.call && (p.plan.Some? ==> e.process.plan == p.plan) && |e.events| <= 1
    requires e.events != [] && e.events[0].Mutation? ==>
      && e.events[0].pid == t.pid && e.process.plan == p.plan
      && exists want, c :: Bound(p, want) && AuthorisedBefore(w.log, |w.log|, t.pid, want, c)
    ensures MutationsAuthorised(v)
  {
    forall k | 0 <= k < |v.log| && v.log[k].Mutation? ensures MutationAuthorised(v, k) {
      if k < |w.log| {
        MutationStays(w, v, k);
      } else {
        var want, c :| Bound(p, want) && AuthorisedBefore(w.log, |w.log|, t.pid, want, c);
        GrownAuthority(w.log, e.events, |w.log|, t.pid, want, c);
        assert Bound(e.process, want) && AuthorisedBefore(v.log, k, t.pid, want, c);
      }
    }
  }

  lemma {:induction false} RunKeeps(check: Checker, w: World, turns: seq<Turn>)
    requires Initial(w)
    ensures Invariant(check, w.store, Run(check, w, turns))
  {
    if turns != [] {
      RunKeeps(check, w, turns[..|turns| - 1]);
      TurnKeeps(check, w.store, Run(check, w, turns[..|turns| - 1]), turns[|turns| - 1]);
    }
  }

  /** A call carries an instant not after the turn in which it gets through to the store. */
  ghost predicate Timed(calls: seq<Call>, turns: seq<Turn>) {
    |calls| == |turns| && forall n | 0 <= n < |turns| :: calls[n].now <= turns[n].now
  }

  ghost predicate ClocksRead(w: World, now: real) {
    forall pid | 0 <= pid < |w.processes| && w.processes[pid].clock.Some? :: w.processes[pid].clock.value <= now
  }

  lemma {:induction false} RunCalls(check: Checker, w: World, turns: seq<Turn>)
    requires Initial(w) && Forward(turns)
    ensures Timed(Run(check, w, turns).calls, turns)
    ensures turns != [] ==> ClocksRead(Run(check, w, turns), turns[|turns| - 1].now)
    ensures turns == [] ==> forall now :: ClocksRead(w, now)
  {
    if turns != [] {
      var before, t := turns[..|turns| - 1], turns[|turns| - 1];
      RunCalls(check, w, before);
      var v := Run(check, w, before);
      assert ClocksRead(v, t.now) by {
        if before != [] {
          assert before[|before| - 1].now <= t.now;
        }
      }
      TurnCalls(check, v, before, t);
      assert before + [t] == turns;
    }
  }

  lemma TurnCalls(check: Checker, w: World, before: seq<Turn>, t: Turn)
    requires Timed(w.calls, before) && ClocksRead(w, t.now)
    ensures Timed(Next(check, w, t).calls, before + [t]) && ClocksRead(Next(check, w, t), t.now)
  {
    if t.pid < |w.processes| && !Finished(w.processes[t.pid]) {
      var p := w.processes[t.pid];
      var e := Logged(check, Code(p.call.handler)[p.pc], p, t, Held(w.store), |w.calls|);
      assert Next(check, w, t).calls == w.calls + [e.call];
    }
  }

  // ----- the guarantees -----

  /**
   * The process verified its token against the hash it recomputed, then consumed it, both before event `k`; and
   * the store accepted that consumption.
   */
  ghost predicate GrantUsed(
    check: Checker, initial: Store, v: World, k: nat, pid: nat, c: Claims, i: nat, j: nat)
    requires pid < |v.processes|
  {
    && i < j < k <= |v.log|
    && v.log[i].Verified? && v.log[i].pid == pid && v.log[i].claims == c
    && Bound(v.processes[pid], v.log[i].want)
    && check.verify(v.processes[pid].call.token, v.log[i].want, v.log[i].now) == Valid(c)
    && v.log[j].ConsumedJti? && v.log[j].pid == pid && v.log[j].claims == c
    && AcceptedAt(initial, v.calls, v.log[j].at) && v.calls[v.log[j].at].key == Strip(c.jti)
  }

  ghost predicate Changed(v: World, k: nat) {
    k < |v.log| && v.log[k].Mutation? && v.log[k].pid < |v.processes|
  }

  /**
   * In every interleaving, each change follows, in the same invocation, a grant check bound to the plan hash
   * recomputed there and a consumption of that grant which the store accepted.
   */
  lemma EveryChangeIsGranted(check: Checker, w: World, turns: seq<Turn>, k: nat)
    requires Initial(w)
    requires var v := Run(check, w, turns); k < |v.log| && v.log[k].Mutation?
    ensures var v := Run(check, w, turns);
      && Changed(v, k)
      && exists c, i: nat, j: nat :: GrantUsed(check, w.store, v, k, v.log[k].pid, c, i, j)
  {
    RunKeeps(check, w, turns);
    var v := Run(check, w, turns);
    var pid := v.log[k].pid;
    assert MutationAuthorised(v, k);
    var want, c :| Bound(v.processes[pid], want) && AuthorisedBefore(v.log, k, pid, want, c);
    var j, at :| 0 <= j < k && v.log[j] == ConsumedJti(pid, c, at) && VerifiedBefore(v.log, j, pid, want, c);
    var i, now :| 0 <= i < j && v.log[i] == Verified(pid, want, c, now);
    assert EventHolds(check, w.store, v, v.log[i]);
    assert EventHolds(check, w.store, v, v.log[j]);
    assert GrantUsed(check, w.store, v, k, pid, c, i, j);
  }

  lemma MeetsPlan(c: Claims, want: Expectation, hash: Digest)
    requires Meets(c, want) && want.planHash == hash
    ensures Lower(c.planHash) == hash
  {
  }

  /** The claims name what the call names; a blank asks for nothing, and one handler does not ask for the artifact. */
  ghost predicate NamesCall(c: Claims, p: Process) {
    && p.plan.Some?
    && (p.call.target == "" || c.target == p.call.target) && (p.call.actor == "" || c.actor == p.call.actor)
    && (p.call.intentPack == "" || c.intentPack == p.call.intentPack)
    && (p.plan.value.artifact == "" || p.call.handler.TreeSync? || Lower(c.artifactSha256) == p.plan.value.artifact)
  }

  /** With signed grants: the claims themselves name the plan hash recomputed by the invocation. */
  lemma EveryChangeIsOfItsPlan(lib: Library, keys: Secrets, w: World, turns: seq<Turn>, k: nat)
    returns (c: Claims, i: nat, j: nat)
    requires Initial(w)
    requires var v := Run(GrantChecker(lib, keys), w, turns); k < |v.log| && v.log[k].Mutation?
    ensures var v := Run(GrantChecker(lib, keys), w, turns);
      && Changed(v, k)
      && GrantUsed(GrantChecker(lib, keys), w.store, v, k, v.log[k].pid, c, i, j)
      && Meets(c, v.log[i].want)
      && v.processes[v.log[k].pid].plan.Some?
      && Lower(c.planHash) == v.processes[v.log[k].pid].plan.value.hash
      && NamesCall(c, v.processes[v.log[k].pid])
      && Open(lib, keys, v.processes[v.log[k].pid].call.token) == Valid(c) && Expiry(lib, c).Some?
  {
    var check := GrantChecker(lib, keys);
    var v := Run(check, w, turns);
    EveryChangeIsGranted(check, w, turns, k);
    var pid := v.log[k].pid;
    c, i, j :| GrantUsed(check, w.store, v, k, pid, c, i, j);
    VerifiedClaims(lib, keys, v.processes[pid].call.token, v.log[i].want, v.log[i].now, c);
    MeetsPlan(c, v.log[i].want, v.processes[pid].plan.value.hash);
  }

  /**
   * The process got a consumption through to the store at or after the expiry of these claims plus sixty seconds,
   * whenever it had read the clock for it.
   */
  ghost predicate ConsumedAfter(lib: Library, turns: seq<Turn>, v: World, pid: nat, c: Claims) {
    && Expiry(lib, c).Some?
    && exists j | 0 <= j < |v.log| && v.log[j].ConsumedJti? && v.log[j].pid == pid ::
         v.log[j].at < |turns| && Expiry(lib, c).value + CLOCK_SKEW_SECONDS <= turns[v.log[j].at].now
  }

  /** Both changes come from tokens, spelled however, that open to claims with one identifier. */
  ghost predicate OneIdentifier(lib: Library, keys: Secrets, v: World, a: nat, b: nat, c: Claims, d: Claims) {
    && Changed(v, a) && Changed(v, b) && v.log[a].pid != v.log[b].pid
    && Open(lib, keys, v.processes[v.log[a].pid].call.token) == Valid(c)
    && Open(lib, keys, v.processes[v.log[b].pid].call.token) == Valid(d)
    && Strip(c.jti) == Strip(d.jti)
  }

  /** The consumption behind change `k`, with the claims that the invocation's token opens to. */
  lemma ChangeConsumes(lib: Library, keys: Secrets, w: World, turns: seq<Turn>, k: nat, c: Claims) returns (j: nat)
    requires Initial(w)
    requires var v := Run(GrantChecker(lib, keys), w, turns);
      Changed(v, k) && Open(lib, keys, v.processes[v.log[k].pid].call.token) == Valid(c)
    ensures var v := Run(GrantChecker(lib, keys), w, turns);
      j < |v.log| && v.log[j].ConsumedJti? && v.log[j].pid == v.log[k].pid && v.log[j].claims == c
    ensures Expiry(lib, c).Some?
  {
    var held, i, at := EveryChangeIsOfItsPlan(lib, keys, w, turns, k);
    j := at;
  }

  /**
   * A grant authorises one batch of changes: when two invocations whose tokens carry one identifier both change
   * something, one of them got it through to the store only after verification had stopped accepting the other's grant.
   */
  lemma OneBatchPerGrant(
    lib: Library, keys: Secrets, w: World, turns: seq<Turn>, a: nat, b: nat, c: Claims, d: Claims)
    requires Initial(w) && Forward(turns)
    requires OneIdentifier(lib, keys, Run(GrantChecker(lib, keys), w, turns), a, b, c, d)
    ensures var v := Run(GrantChecker(lib, keys), w, turns);
            ConsumedAfter(lib, turns, v, v.log[a].pid, d) || ConsumedAfter(lib, turns, v, v.log[b].pid, c)
  {
    var j := ChangeConsumes(lib, keys, w, turns, a, c);
    var k := ChangeConsumes(lib, keys, w, turns, b, d);
    if j < k {
      SecondConsumptionLate(lib, keys, w, turns, j, k);
    } else {
      SecondConsumptionLate(lib, keys, w, turns, k, j);
    }
  }

  /** For one token, also with other white space around it: one of the two consumed its own grant that late. */
  lemma OneBatchPerToken(lib: Library, keys: Secrets, w: World, turns: seq<Turn>, a: nat, b: nat)
    returns (c: Claims)
    requires Initial(w) && Forward(turns)
    requires var v := Run(GrantChecker(lib, keys), w, turns);
      && Changed(v, a) && Changed(v, b) && v.log[a].pid != v.log[b].pid
      && Strip(v.processes[v.log[a].pid].call.token) == Strip(v.processes[v.log[b].pid].call.token)
    ensures var v := Run(GrantChecker(lib, keys), w, turns);
      && Open(lib, keys, v.processes[v.log[a].pid].call.token) == Valid(c)
      && (ConsumedAfter(lib, turns, v, v.log[a].pid, c) || ConsumedAfter(lib, turns, v, v.log[b].pid, c))
  {
    var v := Run(GrantChecker(lib, keys), w, turns);
    var i, j;
    c, i, j := EveryChangeIsOfItsPlan(lib, keys, w, turns, a);
    OpensAlike(lib, keys, v.processes[v.log[a].pid].call.token, v.processes[v.log[b].pid].call.token);
    OneBatchPerGrant(lib, keys, w, turns, a, b, c, c);
  }

  lemma SecondConsumptionLate(lib: Library, keys: Secrets, w: World, turns: seq<Turn>, j: nat, k: nat)
    requires Initial(w) && Forward(turns)
    requires var v := Run(GrantChecker(lib, keys), w, turns);
      && j < k < |v.log| && v.log[j].ConsumedJti? && v.log[k].ConsumedJti?
      && Strip(v.log[j].claims.jti) == Strip(v.log[k].claims.jti) && Expiry(lib, v.log[j].claims).Some?
    ensures var v := Run(GrantChecker(lib, keys), w, turns);
            ConsumedAfter(lib, turns, v, v.log[k].pid, v.log[j].claims)
  {
    var check := GrantChecker(lib, keys);
    var v := Run(check, w, turns);
    RunKeeps(check, w, turns);
    RunCalls(check, w, turns);
    assert EventHolds(check, w.store, v, v.log[j]) && EventHolds(check, w.store, v, v.log[k]);
    ConsumedOnce(w.store, v.calls, v.log[j].at, v.log[k].at);
    var until := Until(v.calls[v.log[j].at]);
    var n :| v.log[j].at < n <= v.log[k].at && n < |v.calls| && until <= v.calls[n].now;
    assert v.calls[n].now <= turns[n].now <= turns[v.log[k].at].now;
  }

  // ----- the two stores -----

  /** The same but for the stores. */
  ghost predicate SameButStore(u: World, v: World) {
    u.processes == v.processes && u.log == v.log && u.calls == v.calls
  }

  lemma ExecuteAlike(check: Checker, i: Instruction, p: Process, t: Turn, e: Entries, f: Entries, at: nat)
    requires var now := Execute(check, i, p, t, e, at).call.now; Purged(e, now) == Purged(f, now)
    ensures Execute(check, i, p, t, e, at) == Execute(check, i, p, t, f, at)
  {
  }

  lemma TurnAlike(check: Checker, u: World, v: World, t: Turn, since: real)
    requires SameButStore(u, v) && u.store.InMemory? && v.store.OnFile?
    requires Purged(Held(u.store), since) == Purged(Held(v.store), since)
    requires var x := Next(check, u, t); since <= x.calls[|x.calls| - 1].now
    ensures var x, y := Next(check, u, t), Next(check, v, t);
            var now := x.calls[|x.calls| - 1].now;
      && SameButStore(x, y) && x.store.InMemory? && y.store.OnFile?
      && Purged(Held(x.store), now) == Purged(Held(y.store), now)
  {
    var now := Next(check, u, t).calls[|u.calls|].now;
    CallAgrees(u.store.entries, v.store.file, Idle(now), since);
    if t.pid < |u.processes| && !Finished(u.processes[t.pid]) {
      var p := u.processes[t.pid];
      var i := Code(p.call.handler)[p.pc];
      ExecuteAlike(check, i, p, t, Held(u.store), Held(v.store), |u.calls|);
      CallAgrees(u.store.entries, v.store.file, Execute(check, i, p, t, Held(u.store), |u.calls|).call, since);
    }
  }

  /** Where the readings reach the store in order, every interleaving takes the same course on both stores. */
  lemma {:induction false} RunAlike(check: Checker, u: World, v: World, turns: seq<Turn>)
    requires SameButStore(u, v) && u.calls == [] && u.store.InMemory? && v.store.OnFile?
    requires Held(u.store) == Held(v.store) && Monotone(Run(check, u, turns).calls)
    ensures var x, y := Run(check, u, turns), Run(check, v, turns);
      && SameButStore(x, y) && x.store.InMemory? && y.store.OnFile? && |x.calls| == |turns|
      && (turns == [] ==> x == u && y == v)
      && (turns != [] ==>
            var now := x.calls[|turns| - 1].now; Purged(Held(x.store), now) == Purged(Held(y.store), now))
  {
    if turns != [] {
      var before, t := turns[..|turns| - 1], turns[|turns| - 1];
      var x := Run(check, u, before);
      var now := Next(check, x, t).calls[|x.calls|].now;
      CallsKept(check, x, t);
      assert forall n | 0 <= n < |x.calls| :: x.calls[n] == Run(check, u, turns).calls[n];
      RunAlike(check, u, v, before);
      TurnAlike(check, x, Run(check, v, before), t, if before == [] then now else x.calls[|before| - 1].now);
    }
  }

  lemma CallsKept(check: Checker, w: World, t: Turn)
    ensures w.calls <= Next(check, w, t).calls
  {
  }
}
