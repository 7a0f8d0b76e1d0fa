/** When a handler consumes a grant that has been consumed before, and what it then does. */
module LateConsumption {
  import opened Text
  import opened ReplayStore
  import opened ApplyGrant
  import opened GrantedHandlers

  // ----- exactly when a handler consumes again -----

  /** The process is about to ask the store, with these claims and this reading of the clock. */
  ghost predicate AboutToConsume(p: Process, c: Claims, reading: real) {
    && !Finished(p) && Code(p.call.handler)[p.pc].ConsumeJti?
    && p.claims == Some(c) && p.clock == Some(reading)
  }

  /**
   * In any run whose readings reach the store in order: a handler that holds verified claims of a consumed grant
   * consumes it again if and only if it read the clock at or after the recorded instant, expiry plus sixty seconds.
   * Nothing bounds how late that is.
   */
  lemma ConsumesAgainExactly(check: Checker, w: World, turns: seq<Turn>, t: Turn, j: nat, c: Claims, reading: real)
    requires Initial(w)
    requires var v := Run(check, w, turns);
      && j < |v.log| && v.log[j].ConsumedJti? && t.pid < |v.processes|
      && AboutToConsume(v.processes[t.pid], c, reading) && Strip(c.jti) == Strip(v.log[j].claims.jti)
    requires var calls := Run(check, w, turns).calls;
      Monotone(calls) && forall n | 0 <= n < |calls| :: calls[n].now <= reading
    requires var v := Run(check, w, turns);
      v.log[j].at < |v.calls| && v.calls[v.log[j].at].Consume? && OneInstant(w.store, v.calls, v.log[j].at, |v.calls|)
    ensures var v := Run(check, w, turns);
      Next(check, v, t).log == v.log + [ConsumedJti(t.pid, c, |v.calls|)]
      <==> Until(v.calls[v.log[j].at]) <= reading
  {
    var v := Run(check, w, turns);
    ConsumptionHolds(check, w, turns, j);
    var call := Consume(Strip(c.jti), check.expiry(c), reading);
    StoreDecides(w.store, v.calls, call, v.log[j].at);
    ConsumeTurn(check, v, t, c, reading);
  }

  /** What the invariant says of a consumption in the log. */
  lemma ConsumptionHolds(check: Checker, w: World, turns: seq<Turn>, j: nat)
    requires Initial(w)
    requires var v := Run(check, w, turns); j < |v.log| && v.log[j].ConsumedJti?
    ensures var v := Run(check, w, turns);
      && v.store == StoreBefore(w.store, v.calls, |v.calls|) && AcceptedAt(w.store, v.calls, v.log[j].at)
      && v.calls[v.log[j].at].key == Strip(v.log[j].claims.jti)
  {
    RunKeeps(check, w, turns);
    var v := Run(check, w, turns);
    assert EventHolds(check, w.store, v, v.log[j]);
  }

  lemma ConsumeTurn(check: Checker, v: World, t: Turn, c: Claims, reading: real)
    requires t.pid < |v.processes| && AboutToConsume(v.processes[t.pid], c, reading)
    ensures Next(check, v, t).log == v.log + [ConsumedJti(t.pid, c, |v.calls|)]
       <==> Judge(Held(v.store), Strip(c.jti), reading).Accepted?
  {
    var e := Execute(check, ConsumeJti, v.processes[t.pid], t, Held(v.store), |v.calls|);
    assert Next(check, v, t).log == v.log + e.events;
    assert |v.log + e.events| == |v.log| + |e.events|;
  }

  lemma StoreDecides(s: Store, calls: seq<Call>, call: Call, i: nat)
    requires Monotone(calls) && (forall n | 0 <= n < |calls| :: calls[n].now <= call.now)
    requires AcceptedAt(s, calls, i) && OneInstant(s, calls, i, |calls|) && call.Consume? && call.key == calls[i].key
    ensures Judge(Held(StoreBefore(s, calls, |calls|)), call.key, call.now).Accepted? <==> Until(calls[i]) <= call.now
  {
    var longer := calls + [call];
    AcceptedAtPrefix(s, calls, [call], i);
    forall m | i < m < |calls| && AcceptedAt(s, longer, m) && longer[m].key == longer[i].key
      ensures Until(longer[m]) == Until(longer[i])
    {
      StoreBeforePrefix(s, calls, [call], m);
      assert AcceptedAt(s, calls, m) && calls[m].key == calls[i].key;
    }
    AcceptedAgainWhenDue(s, longer, i, |calls|);
    StoreBeforePrefix(s, calls, [call], |calls|);
  }

  // ----- an input at which two invocations change something -----

  function Fresh(call: Invocation): Process { Process(call, 0, None, None, None, false) }

  function TurnsOf(pid: nat, now: real, plan: PlanInfo, n: nat): seq<Turn> {
    seq(n, i requires 0 <= i < n => Turn(pid, now, plan, true))
  }

  lemma RunThen(check: Checker, w: World, turns: seq<Turn>, t: Turn)
    ensures Run(check, w, turns + [t]) == Next(check, Run(check, w, turns), t)
  {
    assert (turns + [t])[..|turns|] == turns;
  }

  lemma {:induction false} RunMore(check: Checker, w: World, turns: seq<Turn>, more: seq<Turn>)
    ensures Run(check, w, turns + more) == Run(check, Run(check, w, turns), more)
    decreases |more|
  {
    if more == [] {
      assert turns + more == turns;
    } else {
      var init, t := more[..|more| - 1], more[|more| - 1];
      assert turns + more == (turns + init) + [t] && more == init + [t];
      RunThen(check, w, turns + init, t);
      RunMore(check, w, turns, init);
      RunThen(check, Run(check, w, turns), init, t);
    }
  }

  lemma NextIs(check: Checker, w: World, t: Turn, i: Instruction) returns (v: World)
    requires t.pid < |w.processes| && !Finished(w.processes[t.pid])
    requires i == Code(w.processes[t.pid].call.handler)[w.processes[t.pid].pc]
    ensures var e := Execute(check, i, w.processes[t.pid], t, Held(w.store), |w.calls|);
      && v == Next(check, w, t)
      && v == World(Asked(w.store, e.call), w.processes[t.pid := e.process], w.log + e.events, w.calls + [e.call])
  {
    v := Next(check, w, t);
  }

  /** What the request needs: its own plan, and a token that verifies against it. */
  ghost predicate Goes(check: Checker, call: Invocation, plan: PlanInfo, c: Claims, now: real) {
    && call.handler.BootstrapApiKey? && call.apply && Normal(call.planHash) == plan.hash && c.riskClass == plan.risk
    && check.verify(call.token, Wanted(Fresh(call).(plan := Some(plan))), now) == Valid(c)
  }

  lemma GoesToGates(check: Checker, w: World, pid: nat, call: Invocation, plan: PlanInfo, now: real)
    returns (v: World)
    requires pid < |w.processes| && w.processes[pid] == Fresh(call) && call.handler.BootstrapApiKey? && call.apply
    ensures v == Run(check, w, TurnsOf(pid, now, plan, 3))
    ensures v.processes == w.processes[pid := Process(call, 3, Some(plan), None, None, false)]
    ensures v.store == w.store && v.log == w.log
  {
    var t := Turn(pid, now, plan, true);
    var v1 := NextIs(check, w, t, Plan);
    var v2 := NextIs(check, v1, t, DryRun);
    v := NextIs(check, v2, t, Gates);
    ThreeTurns(check, w, t, t, t, v1, v2, v);
    assert TurnsOf(pid, now, plan, 3) == [t, t, t];
  }

  /** One instruction that asks nothing of the store and logs nothing or one event. */
  lemma NextQuietly(check: Checker, w: World, t: Turn, i: Instruction, q: Process, events: seq<Event>)
    returns (v: World)
    requires t.pid < |w.processes| && !Finished(w.processes[t.pid])
    requires i == Code(w.processes[t.pid].call.handler)[w.processes[t.pid].pc]
    requires Execute(check, i, w.processes[t.pid], t, Held(w.store), |w.calls|) == Effect(q, events, Idle(t.now))
    ensures v == Next(check, w, t)
    ensures v.processes == w.processes[t.pid := q] && v.log == w.log + events && v.store == w.store
  {
    v := NextIs(check, w, t, i);
  }

  lemma HashPasses(check: Checker, p: Process, t: Turn, plan: PlanInfo, entries: Entries, at: nat)
    requires p.plan == Some(plan) && Normal(p.call.planHash) == plan.hash
    ensures Execute(check, PlanHash, p, t, entries, at) == Effect(Advance(p), [], Idle(t.now))
  {
  }

  lemma GrantPasses(check: Checker, p: Process, t: Turn, c: Claims, entries: Entries, at: nat) returns (e: Event)
    requires p.plan.Some? && check.verify(p.call.token, Wanted(p), t.now) == Valid(c)
    ensures Execute(check, VerifyGrant, p, t, entries, at)
         == Effect(Advance(p).(claims := Some(c)), [e], Idle(t.now))
  {
    e := Verified(t.pid, Wanted(p), c, t.now);
  }

  lemma SameWanted(call: Invocation, plan: PlanInfo, pc: nat)
    ensures Wanted(Process(call, pc, Some(plan), None, None, false)) == Wanted(Fresh(call).(plan := Some(plan)))
  {
  }

  lemma GoesPastGates(check: Checker, w: World, pid: nat, call: Invocation, plan: PlanInfo, c: Claims, now: real)
    returns (v: World)
    requires pid < |w.processes| && w.processes[pid] == Process(call, 3, Some(plan), None, None, false)
    requires Goes(check, call, plan, c, now)
    ensures v == Run(check, w, TurnsOf(pid, now, plan, 3))
    ensures v.processes == w.processes[pid := Process(call, 6, Some(plan), Some(c), None, false)]
    ensures v.store == w.store && |v.log| == |w.log| + 1 && w.log <= v.log
  {
    var t := Turn(pid, now, plan, true);
    var p4, p5 := Process(call, 4, Some(plan), None, None, false), Process(call, 5, Some(plan), Some(c), None, false);
    var p6 := Process(call, 6, Some(plan), Some(c), None, false);
    HashPasses(check, w.processes[pid], t, plan, Held(w.store), |w.calls|);
    var v1 := NextQuietly(check, w, t, PlanHash, p4, []);
    SameWanted(call, plan, 4);
    var e := GrantPasses(check, p4, t, c, Held(v1.store), |v1.calls|);
    var v2 := NextQuietly(check, v1, t, VerifyGrant, p5, [e]);
    v := NextQuietly(check, v2, t, RiskClass, p6, []);
    ThreeTurns(check, w, t, t, t, v1, v2, v);
    assert TurnsOf(pid, now, plan, 3) == [t, t, t];
  }

  /** The first six instructions of a request: it has verified its token and asked nothing of the store. */
  lemma GoesToVerified(check: Checker, w: World, pid: nat, call: Invocation, plan: PlanInfo, c: Claims, now: real)
    returns (v: World)
    requires pid < |w.processes| && w.processes[pid] == Fresh(call) && Goes(check, call, plan, c, now)
    ensures v == Run(check, w, TurnsOf(pid, now, plan, 6))
    ensures v.processes == w.processes[pid := Process(call, 6, Some(plan), Some(c), None, false)]
    ensures v.store == w.store && |v.log| == |w.log| + 1 && w.log <= v.log
  {
    var u := GoesToGates(check, w, pid, call, plan, now);
    v := GoesPastGates(check, u, pid, call, plan, c, now);
    RunMore(check, w, TurnsOf(pid, now, plan, 3), TurnsOf(pid, now, plan, 3));
    assert TurnsOf(pid, now, plan, 3) + TurnsOf(pid, now, plan, 3) == TurnsOf(pid, now, plan, 6);
  }

  lemma ThreeTurns(
    check: Checker, w: World, a: Turn, b: Turn, c: Turn, v1: World, v2: World, v3: World)
    requires v1 == Next(check, w, a) && v2 == Next(check, v1, b) && v3 == Next(check, v2, c)
    ensures Run(check, w, [a, b, c]) == v3
  {
    assert Run(check, w, []) == w;
    RunThen(check, w, [], a);
    RunThen(check, w, [a], b);
    RunThen(check, w, [a, b], c);
    assert [] + [a] == [a] && [a] + [b] == [a, b] && [a, b] + [c] == [a, b, c];
  }

  /** The last three: it reads the clock, consumes and changes something. */
  lemma GoesOn(check: Checker, w: World, pid: nat, call: Invocation, plan: PlanInfo, c: Claims, now: real)
    returns (v: World)
    requires pid < |w.processes| && call.handler.BootstrapApiKey?
    requires w.processes[pid] == Process(call, 6, Some(plan), Some(c), None, false)
    requires Judge(Held(w.store), Strip(c.jti), now).Accepted?
    ensures v == Run(check, w, TurnsOf(pid, now, plan, 3)) && w.log <= v.log
    ensures |v.log| == |w.log| + 2 && v.log[|w.log| + 1] == Mutation(pid)
    ensures v.store == Asked(w.store, Consume(Strip(c.jti), check.expiry(c), now))
    ensures |v.processes| == |w.processes|
    ensures forall q | 0 <= q < |w.processes| && q != pid :: v.processes[q] == w.processes[q]
  {
    var t := Turn(pid, now, plan, true);
    var v1 := NextIs(check, w, t, ReadClock);
    var v2 := NextIs(check, v1, t, ConsumeJti);
    v := NextIs(check, v2, t, Mutate);
    ThreeTurns(check, w, t, t, t, v1, v2, v);
    assert TurnsOf(pid, now, plan, 3) == [t, t, t];
  }

  /** Both verify in time, the first goes on at once, the second from the recorded instant on, however late. */
  function LateTurns(plan: PlanInfo, early: real, late: real): seq<Turn> {
    TurnsOf(1, early, plan, 6) + TurnsOf(0, early, plan, 6) + TurnsOf(0, early, plan, 3) + TurnsOf(1, late, plan, 3)
  }

  /** With one token two invocations both change something, at any instant from expiry plus sixty seconds on. */
  lemma BothChangeWhenLate(
    check: Checker, s: Store, call: Invocation, plan: PlanInfo, c: Claims, exp: real, early: real, late: real)
    requires s == InMemory(map[]) || s == OnFile(Missing)
    requires Goes(check, call, plan, c, early) && check.expiry(c) == Some(exp) && Strip(c.jti) != ""
    requires exp + CLOCK_SKEW_SECONDS <= late
    ensures var v := Run(check, World(s, [Fresh(call), Fresh(call)], [], []), LateTurns(plan, early, late));
      exists a, b :: 0 <= a < |v.log| && 0 <= b < |v.log| && v.log[a] == Mutation(0) && v.log[b] == Mutation(1)
  {
    var w := World(s, [Fresh(call), Fresh(call)], [], []);
    EntryComesAndGoes(s, Strip(c.jti), exp, early, late);
    var v1 := GoesToVerified(check, w, 1, call, plan, c, early);
    var v2 := GoesToVerified(check, v1, 0, call, plan, c, early);
    var v3 := GoesOn(check, v2, 0, call, plan, c, early);
    var v4 := GoesOn(check, v3, 1, call, plan, c, late);
    FourParts(check, w, TurnsOf(1, early, plan, 6), TurnsOf(0, early, plan, 6), TurnsOf(0, early, plan, 3),
              TurnsOf(1, late, plan, 3));
    assert v4.log[|v2.log| + 1] == Mutation(0) && v4.log[|v3.log| + 1] == Mutation(1);
  }

  lemma EntryComesAndGoes(s: Store, key: string, exp: real, early: real, late: real)
    requires (s == InMemory(map[]) || s == OnFile(Missing)) && key != "" && exp + CLOCK_SKEW_SECONDS <= late
    ensures Judge(Held(s), key, early).Accepted?
    ensures Judge(Held(Asked(s, Consume(key, Some(exp), early))), key, late).Accepted?
  {
    assert Held(s) == map[];
    assert Held(Asked(s, Consume(key, Some(exp), early))) == map[key := exp + CLOCK_SKEW_SECONDS];
  }

  lemma FourParts(check: Checker, w: World, a: seq<Turn>, b: seq<Turn>, c: seq<Turn>, d: seq<Turn>)
    ensures Run(check, w, a + b + c + d) == Run(check, Run(check, Run(check, Run(check, w, a), b), c), d)
  {
    RunMore(check, w, a, b);
    RunMore(check, w, a + b, c);
    RunMore(check, w, a + b + c, d);
  }
}
