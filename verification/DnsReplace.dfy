/** Replacing an address record in a zone that Plesk serves: delete, add, put back on failure, and read back. */
module DnsReplace {
  import opened Text
  import opened DnsNames
  import opened Filtering
  import opened RecordPlans

  /** A record as the panel lists it. */
  datatype Row = Row(id: nat, host: string, kind: string, value: string, opt: Option<string>)

  /** An `add_rec` operation, with the name relative to the zone. */
  datatype Add = Add(relative: string, kind: string, value: string, opt: Option<string>)

  /** What is asked for, as validation leaves it. */
  datatype Want = Want(host: string, kind: string, value: string)

  /**
   * The panel's answer to a packet of operations. Of a packet that is not accepted some operations may have taken
   * effect: those on these record identifiers, or those at these positions.
   */
  datatype Answer = Answer(accepted: bool, effective: set<nat>)

  /** The answers to the delete packet, the add packet and the packet that puts the deleted records back. */
  datatype Answers = Answers(delete: Answer, add: Answer, restore: Answer)

  /** The records of the zone, and the identifier the panel gives next. */
  datatype Zone = Zone(rows: seq<Row>, next: nat)

  datatype Outcome =
    | Unchanged
    | DeleteFailed
    | AddFailed(rollbackAttempted: bool, rollbackOk: bool)
    | VerificationFailed(remaining: seq<Row>)
    | Verified(record: Row)

  function Id(row: Row): nat { row.id }

  function At(host: string): Row -> bool { (row: Row) => row.host == host && row.kind in ADDRESS_TYPES }

  /** The comparison of values ignores trailing dots on the record's side and the letter case on both. */
  predicate Matches(row: Row, want: Want) {
    row.kind == want.kind && Lower(TrimRight(row.value, IsDot)) == Lower(want.value)
  }

  function Match(want: Want): Row -> bool { (row: Row) => Matches(row, want) }

  function PlanFor(rows: seq<Row>, want: Want): Plan<Row> {
    PlanOn(Filter(rows, At(want.host)), Match(want))
  }

  function Hosts(rows: seq<Row>): seq<string> { seq(|rows|, i requires 0 <= i < |rows| => rows[i].host) }

  // ----- the panel -----

  function Deleted(z: Zone, ids: set<nat>, answer: Answer): Zone {
    z.(rows := Without(z.rows, Id, if answer.accepted then ids else ids * answer.effective))
  }

  function Put(apex: string, z: Zone, a: Add): Zone {
    Zone(z.rows + [Row(z.next, Qualify(a.relative, apex), a.kind, a.value, a.opt)], z.next + 1)
  }

  /** The zone after the first `n` operations of a packet. */
  function Added(apex: string, z: Zone, adds: seq<Add>, answer: Answer, n: nat): Zone
    requires n <= |adds|
  {
    if n == 0 then z
    else
      var before := Added(apex, z, adds, answer, n - 1);
      if answer.accepted || n - 1 in answer.effective then Put(apex, before, adds[n - 1]) else before
  }

  class PleskZone {
    const apex: string
    var rows: seq<Row>
    var next: nat

    constructor (apex: string, z: Zone)
      ensures this.apex == apex && State() == z
    {
      this.apex := apex;
      rows := z.rows;
      next := z.next;
    }

    function State(): Zone
      reads this
    {
      Zone(rows, next)
    }

    method DeleteRecords(ids: set<nat>, answer: Answer) returns (ok: bool)
      modifies this
      ensures ok == answer.accepted && State() == Deleted(old(State()), ids, answer)
    {
      var gone := if answer.accepted then ids else ids * answer.effective;
      rows := Without(rows, Id, gone);
      ok := answer.accepted;
    }

    method AddRecords(adds: seq<Add>, answer: Answer) returns (ok: bool)
      modifies this
      ensures ok == answer.accepted && State() == Added(apex, old(State()), adds, answer, |adds|)
    {
      for i := 0 to |adds|
        invariant State() == Added(apex, old(State()), adds, answer, i)
      {
        if answer.accepted || i in answer.effective {
          var a := adds[i];
          rows := rows + [Row(next, Qualify(a.relative, apex), a.kind, a.value, a.opt)];
          next := next + 1;
        }
      }
      ok := answer.accepted;
    }
  }

  // ----- the replacement -----

  function AddFor(want: Want, hosts: seq<string>): Add { Add(AddHost(want.host, hosts), want.kind, want.value, None) }

  /** The operations that put deleted records back. */
  function Restores(rows: seq<Row>, hosts: seq<string>): seq<Add> {
    seq(|rows|, i requires 0 <= i < |rows| =>
      Add(AddHost(rows[i].host, hosts), rows[i].kind, rows[i].value, rows[i].opt))
  }

  function ReadBack(rows: seq<Row>, want: Want): Outcome {
    var remaining := Filter(rows, At(want.host));
    if |remaining| == 1 && Matches(remaining[0], want) then Verified(remaining[0]) else VerificationFailed(remaining)
  }

  /** The records deleted, in the order in which they were listed. */
  function DeletedRows(rows: seq<Row>, want: Want): seq<Row> {
    var ids := Ids(PlanFor(rows, want).delete, Id);
    Filter(Filter(rows, At(want.host)), IdIn(Id, ids))
  }

  /** The zone after the delete stage, which is skipped when there is nothing to delete. */
  function AfterDelete(z: Zone, want: Want, answer: Answer): Zone {
    var plan := PlanFor(z.rows, want);
    if plan.delete == [] then z else Deleted(z, Ids(plan.delete, Id), answer)
  }

  /** The zone after the add stage. */
  function AfterAdd(apex: string, z: Zone, want: Want, answers: Answers): Zone {
    Added(apex, AfterDelete(z, want, answers.delete), [AddFor(want, Hosts(z.rows))], answers.add, 1)
  }

  /** The zone after the deleted records were put back. */
  function AfterRestore(apex: string, z: Zone, want: Want, answers: Answers): Zone {
    var restores := Restores(DeletedRows(z.rows, want), Hosts(z.rows));
    Added(apex, AfterAdd(apex, z, want, answers), restores, answers.restore, |restores|)
  }

  function Replaced(apex: string, z: Zone, want: Want, answers: Answers): (Zone, Outcome) {
    var plan := PlanFor(z.rows, want);
    if !plan.Changed() then (z, Unchanged)
    else if plan.delete != [] && !answers.delete.accepted then (AfterDelete(z, want, answers.delete), DeleteFailed)
    else if !plan.add then
      var after := AfterDelete(z, want, answers.delete);
      (after, ReadBack(after.rows, want))
    else if answers.add.accepted then
      var after := AfterAdd(apex, z, want, answers);
      (after, ReadBack(after.rows, want))
    else if DeletedRows(z.rows, want) == [] then (AfterAdd(apex, z, want, answers), AddFailed(false, false))
    else (AfterRestore(apex, z, want, answers), AddFailed(true, answers.restore.accepted))
  }

  /** The application of a plan, once its grant has been consumed. */
  method Replace(zone: PleskZone, want: Want, answers: Answers) returns (outcome: Outcome)
    modifies zone
    ensures (zone.State(), outcome) == Replaced(zone.apex, old(zone.State()), want, answers)
  {
    var records := zone.rows;
    var plan := PlanFor(records, want);
    if !plan.Changed() {
      return Unchanged;
    }
    var deleted := DeletedRows(records, want);
    if plan.delete != [] {
      var ok := zone.DeleteRecords(Ids(plan.delete, Id), answers.delete);
      if !ok {
        return DeleteFailed;
      }
    }
    if plan.add {
      var ok := zone.AddRecords([AddFor(want, Hosts(records))], answers.add);
      if !ok {
        var rollbackAttempted, rollbackOk := deleted != [], false;
        if rollbackAttempted {
          rollbackOk := zone.AddRecords(Restores(deleted, Hosts(records)), answers.restore);
        }
        return AddFailed(rollbackAttempted, rollbackOk);
      }
    }
    outcome := ReadBack(zone.rows, want);
  }

  // ----- what the stages do to the records at the host and to the others -----

  /** Identifiers are unique, and those given next are new. */
  ghost predicate Proper(z: Zone) {
    UniqueIds(z.rows, Id) && forall row | row in z.rows :: row.id < z.next
  }

  /** A record added for the host is stored at the host. */
  predicate Named(apex: string, z: Zone, want: Want) { Qualify(AddHost(want.host, Hosts(z.rows)), apex) == want.host }

  /** The request's value carries no trailing dot and its type is an address type. */
  predicate Sound(want: Want) {
    want.kind in ADDRESS_TYPES && TrimRight(want.value, IsDot) == want.value
  }

  function Others(z: Zone, want: Want): seq<Row> { Filter(z.rows, Not(At(want.host))) }

  function Addresses(z: Zone, want: Want): seq<Row> { Filter(z.rows, At(want.host)) }

  function Kept(z: Zone, want: Want): seq<Row> { Filter(Addresses(z, want), Match(want)) }

  lemma DeleteStage(z: Zone, want: Want, answer: Answer)
    requires UniqueIds(z.rows, Id) && (answer.accepted || PlanFor(z.rows, want).delete == [])
    ensures var after := AfterDelete(z, want, answer);
            && Others(after, want) == Others(z, want)
            && Addresses(after, want) == if PlanFor(z.rows, want).add then [] else [Kept(z, want)[0]]
  {
    var plan := PlanFor(z.rows, want);
    PlannedDeletes(z.rows, Id, At(want.host), Addresses(z, want), Match(want));
    if plan.delete == [] {
      FilterAll(z.rows, Not(IdIn(Id, Ids(plan.delete, Id))));
    }
  }

  /** One added record. */
  lemma PutStage(apex: string, z: Zone, want: Want, a: Add)
    ensures var row := Row(z.next, Qualify(a.relative, apex), a.kind, a.value, a.opt);
            var after := Put(apex, z, a);
            && Others(after, want) == Others(z, want) + (if At(want.host)(row) then [] else [row])
            && Addresses(after, want) == Addresses(z, want) + (if At(want.host)(row) then [row] else [])
  {
    var row := Row(z.next, Qualify(a.relative, apex), a.kind, a.value, a.opt);
    FilterAppend(z.rows, [row], At(want.host));
    FilterAppend(z.rows, [row], Not(At(want.host)));
    assert [row][1..] == [];
  }

  lemma AddStage(apex: string, z: Zone, want: Want, answers: Answers)
    ensures AfterAdd(apex, z, want, answers)
         == if answers.add.accepted || 0 in answers.add.effective
            then Put(apex, AfterDelete(z, want, answers.delete), AddFor(want, Hosts(z.rows)))
            else AfterDelete(z, want, answers.delete)
  {
    var before, adds := AfterDelete(z, want, answers.delete), [AddFor(want, Hosts(z.rows))];
    assert Added(apex, before, adds, answers.add, 0) == before;
  }

  lemma {:induction false} FilterUnique(rows: seq<Row>, p: Row -> bool)
    requires UniqueIds(rows, Id)
    ensures UniqueIds(Filter(rows, p), Id)
  {
    if rows != [] {
      var rest := rows[1..];
      assert rows == [rows[0]] + rest;
      assert forall k | 0 <= k < |rest| :: rest[k] == rows[k + 1];
      FilterUnique(rest, p);
      FilterIn(rest, p);
      var left := Filter(rest, p);
      forall k | 0 <= k < |left| ensures left[k].id != rows[0].id {
        assert left[k] in rest;
      }
      assert Filter(rows, p) == if p(rows[0]) then [rows[0]] + left else left;
    }
  }

  lemma DeletedProper(z: Zone, ids: set<nat>, answer: Answer)
    requires Proper(z)
    ensures Proper(Deleted(z, ids, answer)) && Deleted(z, ids, answer).next == z.next
  {
    var gone := if answer.accepted then ids else ids * answer.effective;
    FilterUnique(z.rows, Not(IdIn(Id, gone)));
    FilterIn(z.rows, Not(IdIn(Id, gone)));
  }

  lemma PutProper(apex: string, z: Zone, a: Add)
    requires Proper(z)
    ensures Proper(Put(apex, z, a))
  {
    assert forall i | 0 <= i < |z.rows| :: z.rows[i] in z.rows;
  }

  lemma {:induction false} AddedProper(apex: string, z: Zone, adds: seq<Add>, answer: Answer, n: nat)
    requires Proper(z) && n <= |adds|
    ensures Proper(Added(apex, z, adds, answer, n))
  {
    if n > 0 {
      AddedProper(apex, z, adds, answer, n - 1);
      PutProper(apex, Added(apex, z, adds, answer, n - 1), adds[n - 1]);
    }
  }

  /** However the panel answers, identifiers stay unique, so that a next replacement starts as this one did. */
  lemma ReplaceKeepsIds(apex: string, z: Zone, want: Want, answers: Answers)
    requires Proper(z)
    ensures Proper(Replaced(apex, z, want, answers).0)
  {
    var after := AfterDelete(z, want, answers.delete);
    DeletedProper(z, Ids(PlanFor(z.rows, want).delete, Id), answers.delete);
    AddedProper(apex, after, [AddFor(want, Hosts(z.rows))], answers.add, 1);
    var restores := Restores(DeletedRows(z.rows, want), Hosts(z.rows));
    AddedProper(apex, AfterAdd(apex, z, want, answers), restores, answers.restore, |restores|);
  }

  // ----- convergence -----

  /**
   * With everything accepted, the read-back passes exactly when a matching record was already there or an added
   * one lands at the host. It then finds one address record there, the one kept if there was one; all other
   * records are as before, and replanning finds nothing to do.
   */
  lemma ReplaceConverges(apex: string, z: Zone, want: Want, answers: Answers)
    requires Proper(z) && Sound(want) && answers.delete.accepted && answers.add.accepted
    requires PlanFor(z.rows, want).Changed()
    ensures var (after, outcome) := Replaced(apex, z, want, answers);
      && (outcome.Verified? <==> Kept(z, want) != [] || Named(apex, z, want))
      && (outcome.Verified? ==>
            && Addresses(after, want) == [outcome.record] && Matches(outcome.record, want)
            && outcome.record == (if Kept(z, want) != [] then Kept(z, want)[0]
                                  else Row(z.next, want.host, want.kind, want.value, None))
            && Others(after, want) == Others(z, want)
            && Replaced(apex, after, want, answers) == (after, Unchanged))
      && (!outcome.Verified? ==> outcome == VerificationFailed([]) && Addresses(after, want) == [])
  {
    DeleteStage(z, want, answers.delete);
    if Kept(z, want) != [] {
      var e := Kept(z, want)[0];
      FilterIn(Addresses(z, want), Match(want));
      assert e in Kept(z, want);
      NothingMore(e, Match(want));
    } else {
      AddStage(apex, z, want, answers);
      var before, a := AfterDelete(z, want, answers.delete), AddFor(want, Hosts(z.rows));
      PutStage(apex, before, want, a);
      var row := Row(before.next, Qualify(a.relative, apex), a.kind, a.value, a.opt);
      NothingMoreIf(row, want);
    }
  }

  lemma NothingMoreIf(row: Row, want: Want)
    ensures Matches(row, want) ==> PlanOn([row], Match(want)) == Plan([], false)
  {
    if Matches(row, want) {
      NothingMore(row, Match(want));
    }
  }

  /** Where all hosts lie in the zone and its apex is listed, only the apex of a deeper zone cannot be replaced. */
  lemma ReplaceVerifiedExactly(apex: string, z: Zone, want: Want, answers: Answers)
    requires Proper(z) && Sound(want) && answers.delete.accepted && answers.add.accepted
    requires PlanFor(z.rows, want).Changed()
    requires IsHost(want.host) && IsHost(apex) && InZone(want.host, apex)
    requires apex in Hosts(z.rows) && forall p | p in Hosts(z.rows) :: InZone(p, apex)
    ensures Replaced(apex, z, want, answers).1.Verified?
       <==> Kept(z, want) != [] || want.host != apex || |Split(apex, '.')| <= 2
  {
    ReplaceConverges(apex, z, want, answers);
    QualifiesInZone(want.host, Hosts(z.rows), apex);
  }

  // ----- what the answers mean, field by field -----

  /** The record is as requested; trailing dots on its side and letter case play no part. */
  ghost predicate AsRequested(row: Row, want: Want) {
    && row.host == want.host && row.kind == want.kind
    && Lower(TrimRight(row.value, IsDot)) == Lower(want.value)
  }

  /** The record is the only address record at the host. */
  ghost predicate OnlyAddress(rows: seq<Row>, row: Row, host: string) {
    && row in rows && row.host == host
    && forall other | other in rows && other.host == host && other.kind in {"A", "AAAA", "CNAME"} :: other == row
  }

  lemma OnlyOne(rows: seq<Row>, want: Want, row: Row)
    requires Filter(rows, At(want.host)) == [row]
    ensures OnlyAddress(rows, row, want.host)
  {
    FilterIn(rows, At(want.host));
    assert row in [row];
    forall other | other in rows && other.host == want.host && other.kind in {"A", "AAAA", "CNAME"}
      ensures other == row
    {
      assert other in Filter(rows, At(want.host));
    }
  }

  /** However the panel answered: a verified record is as requested and the only address record left at the host. */
  lemma VerifiedIsAsRequested(apex: string, z: Zone, want: Want, answers: Answers)
    requires Replaced(apex, z, want, answers).1.Verified?
    ensures var (after, outcome) := Replaced(apex, z, want, answers);
            AsRequested(outcome.record, want) && OnlyAddress(after.rows, outcome.record, want.host)
  {
    var (after, outcome) := Replaced(apex, z, want, answers);
    var left := Filter(after.rows, At(want.host));
    assert left == [left[0]] && outcome.record == left[0];
    OnlyOne(after.rows, want, left[0]);
  }

  /** Nothing is done exactly if the one address record at the host is as requested. */
  lemma UnchangedExactly(apex: string, z: Zone, want: Want, answers: Answers)
    requires UniqueIds(z.rows, Id) && want.kind in {"A", "AAAA", "CNAME"}
    ensures Replaced(apex, z, want, answers).1 == Unchanged
       <==> exists row :: OnlyAddress(z.rows, row, want.host) && AsRequested(row, want)
  {
    var addresses, kept := Addresses(z, want), Kept(z, want);
    FilterIn(z.rows, At(want.host));
    FilterIn(addresses, Match(want));
    FilterIn(addresses, Spare(kept));
    if !PlanFor(z.rows, want).Changed() {
      var row := kept[0];
      assert row in kept;
      forall other | other in z.rows && other.host == want.host && other.kind in {"A", "AAAA", "CNAME"}
        ensures other == row
      {
        assert other in addresses && other !in Filter(addresses, Spare(kept));
      }
      assert OnlyAddress(z.rows, row, want.host) && AsRequested(row, want);
    } else if row :| OnlyAddress(z.rows, row, want.host) && AsRequested(row, want) {
      assert row in kept && kept[0] in kept;
      var plan := PlanFor(z.rows, want);
      assert plan.delete != [] ==> plan.delete[0] in plan.delete;
    }
  }

  /** When an add is refused, a rollback is attempted exactly if anything was deleted; it works as answered. */
  lemma AddFailedExactly(apex: string, z: Zone, want: Want, answers: Answers)
    requires PlanFor(z.rows, want).add && !answers.add.accepted
    requires PlanFor(z.rows, want).delete == [] || answers.delete.accepted
    ensures Replaced(apex, z, want, answers).1
         == if (exists row :: row in z.rows && row.host == want.host && row.kind in {"A", "AAAA", "CNAME"})
            then AddFailed(true, answers.restore.accepted) else AddFailed(false, false)
  {
    AllDeleted(z.rows, want);
    FilterIn(z.rows, At(want.host));
    var addresses := Addresses(z, want);
    if addresses != [] {
      assert addresses[0] in addresses;
    }
  }

  // ----- compensation -----

  /** What a record says, whatever its identifier. */
  datatype Fact = Fact(host: string, kind: string, value: string, opt: Option<string>)

  function FactOf(row: Row): Fact { Fact(row.host, row.kind, row.value, row.opt) }

  function Facts(rows: seq<Row>): seq<Fact> { seq(|rows|, i requires 0 <= i < |rows| => FactOf(rows[i])) }

  function AddFacts(apex: string, adds: seq<Add>): seq<Fact> {
    seq(|adds|, i requires 0 <= i < |adds| =>
      Fact(Qualify(adds[i].relative, apex), adds[i].kind, adds[i].value, adds[i].opt))
  }

  lemma {:induction false} FactsSplit(s: seq<Row>, p: Row -> bool)
    ensures multiset(Facts(Filter(s, p))) + multiset(Facts(Filter(s, Not(p)))) == multiset(Facts(s))
  {
    if s != [] {
      FactsSplit(s[1..], p);
      assert s == [s[0]] + s[1..];
      FactsAppend([s[0]], s[1..]);
      FactsAppend([s[0]], Filter(s[1..], p));
      FactsAppend([s[0]], Filter(s[1..], Not(p)));
      assert Filter(s, p) == if p(s[0]) then [s[0]] + Filter(s[1..], p) else Filter(s[1..], p);
      assert Filter(s, Not(p)) == if p(s[0]) then Filter(s[1..], Not(p)) else [s[0]] + Filter(s[1..], Not(p));
    }
  }

  lemma FactsAppend(a: seq<Row>, b: seq<Row>)
    ensures Facts(a + b) == Facts(a) + Facts(b)
  {
  }

  lemma {:induction false} AcceptedFacts(apex: string, z: Zone, adds: seq<Add>, answer: Answer, n: nat)
    requires n <= |adds| && answer.accepted
    ensures Facts(Added(apex, z, adds, answer, n).rows) == Facts(z.rows) + AddFacts(apex, adds)[..n]
  {
    if n > 0 {
      AcceptedFacts(apex, z, adds, answer, n - 1);
      var before := Added(apex, z, adds, answer, n - 1);
      var a := adds[n - 1];
      FactsAppend(before.rows, [Row(before.next, Qualify(a.relative, apex), a.kind, a.value, a.opt)]);
      assert AddFacts(apex, adds)[..n] == AddFacts(apex, adds)[..n - 1] + [AddFacts(apex, adds)[n - 1]];
    }
  }

  /** When a record is to be added, all address records at the host are deleted. */
  lemma AllDeleted(rows: seq<Row>, want: Want)
    requires PlanFor(rows, want).add
    ensures PlanFor(rows, want).delete == Filter(rows, At(want.host)) == DeletedRows(rows, want)
  {
    var addresses := Filter(rows, At(want.host));
    var matching := Filter(addresses, Match(want));
    FilterAll(addresses, Spare(matching));
    var ids := Ids(PlanFor(rows, want).delete, Id);
    forall row | row in addresses ensures row.id in ids {
      var i :| 0 <= i < |addresses| && addresses[i] == row;
      assert Id(addresses[i]) in ids;
    }
    FilterAll(addresses, IdIn(Id, ids));
  }

  /** The facts of these records with the host replaced. */
  function Moved(rows: seq<Row>, host: string): seq<Fact> {
    seq(|rows|, i requires 0 <= i < |rows| => Fact(host, rows[i].kind, rows[i].value, rows[i].opt))
  }

  lemma MovedBack(rows: seq<Row>, host: string, to: string)
    requires rows != [] && forall i | 0 <= i < |rows| :: rows[i].host == host
    ensures multiset(Moved(rows, to)) == multiset(Facts(rows)) <==> to == host
  {
    if to == host {
      assert Moved(rows, to) == Facts(rows);
    } else {
      assert Facts(rows)[0].host == host;
      assert Facts(rows)[0] in multiset(Facts(rows)) && Facts(rows)[0] !in Moved(rows, to);
    }
  }

  lemma RestoresMoved(apex: string, rows: seq<Row>, hosts: seq<string>, host: string)
    requires forall i | 0 <= i < |rows| :: rows[i].host == host
    ensures AddFacts(apex, Restores(rows, hosts)) == Moved(rows, Qualify(AddHost(host, hosts), apex))
  {
  }

  lemma HostOfAddresses(z: Zone, want: Want)
    ensures forall i | 0 <= i < |Addresses(z, want)| ::
      Addresses(z, want)[i].host == want.host && Addresses(z, want)[i].kind in ADDRESS_TYPES
  {
    FilterIn(z.rows, At(want.host));
    forall i | 0 <= i < |Addresses(z, want)|
      ensures Addresses(z, want)[i].host == want.host && Addresses(z, want)[i].kind in ADDRESS_TYPES
    {
      assert Addresses(z, want)[i] in Addresses(z, want);
    }
  }

  /** The facts after an accepted restore: those left by the delete, and the deleted ones at the place added to. */
  lemma FactsAfterRestore(apex: string, left: Zone, rows: seq<Row>, hosts: seq<string>, host: string, answer: Answer)
    requires answer.accepted && forall i | 0 <= i < |rows| :: rows[i].host == host
    ensures Facts(Added(apex, left, Restores(rows, hosts), answer, |rows|).rows)
         == Facts(left.rows) + Moved(rows, Qualify(AddHost(host, hosts), apex))
  {
    var restores := Restores(rows, hosts);
    AcceptedFacts(apex, left, restores, answer, |restores|);
    RestoresMoved(apex, rows, hosts, host);
    assert AddFacts(apex, restores)[..|restores|] == AddFacts(apex, restores);
  }

  lemma FactsLeft(z: Zone, left: Zone, want: Want)
    requires Others(left, want) == Others(z, want) && Addresses(left, want) == []
    ensures multiset(Facts(left.rows)) == multiset(Facts(Others(z, want)))
    ensures multiset(Facts(z.rows)) == multiset(Facts(left.rows)) + multiset(Facts(Addresses(z, want)))
  {
    FactsSplit(z.rows, At(want.host));
    FactsSplit(left.rows, At(want.host));
  }

  /**
   * When the add is refused without effect after an accepted delete, the records put back say what the zone said
   * before exactly when there were none to put back or they land at the host again.
   */
  lemma CompensationRestores(apex: string, z: Zone, want: Want, answers: Answers)
    requires Proper(z) && PlanFor(z.rows, want).add
    requires answers.delete.accepted && answers.restore.accepted
    requires !answers.add.accepted && answers.add.effective == {}
    ensures var (after, outcome) := Replaced(apex, z, want, answers);
      && outcome == AddFailed(Addresses(z, want) != [], Addresses(z, want) != [])
      && (multiset(Facts(after.rows)) == multiset(Facts(z.rows))
          <==> Addresses(z, want) == [] || Named(apex, z, want))
  {
    var left := AfterDelete(z, want, answers.delete);
    AllDeleted(z.rows, want);
    AddStage(apex, z, want, answers);
    if Addresses(z, want) != [] {
      DeleteStage(z, want, answers.delete);
      HostOfAddresses(z, want);
      FactsLeft(z, left, want);
      RestoredExactly(apex, z, left, Addresses(z, want), want.host, answers.restore);
    }
  }

  lemma RestoredExactly(apex: string, z: Zone, left: Zone, rows: seq<Row>, host: string, answer: Answer)
    requires answer.accepted && rows != [] && forall i | 0 <= i < |rows| :: rows[i].host == host
    requires multiset(Facts(z.rows)) == multiset(Facts(left.rows)) + multiset(Facts(rows))
    ensures var after := Added(apex, left, Restores(rows, Hosts(z.rows)), answer, |rows|);
            multiset(Facts(after.rows)) == multiset(Facts(z.rows))
            <==> Qualify(AddHost(host, Hosts(z.rows)), apex) == host
  {
    var to := Qualify(AddHost(host, Hosts(z.rows)), apex);
    FactsAfterRestore(apex, left, rows, Hosts(z.rows), host, answer);
    MovedBack(rows, host, to);
    Cancelled(multiset(Facts(left.rows)), multiset(Moved(rows, to)), multiset(Facts(rows)));
  }

  lemma Cancelled(a: multiset<Fact>, b: multiset<Fact>, c: multiset<Fact>)
    ensures a + b == a + c <==> b == c
  {
    assert (a + b) - a == b && (a + c) - a == c;
  }

  /** The same exception as for the replacement itself: a deleted record of a deeper apex does not come back. */
  lemma CompensationRestoresExactly(apex: string, z: Zone, want: Want, answers: Answers)
    requires Proper(z) && PlanFor(z.rows, want).add
    requires answers.delete.accepted && answers.restore.accepted
    requires !answers.add.accepted && answers.add.effective == {}
    requires IsHost(want.host) && IsHost(apex) && InZone(want.host, apex)
    requires apex in Hosts(z.rows) && forall p | p in Hosts(z.rows) :: InZone(p, apex)
    ensures multiset(Facts(Replaced(apex, z, want, answers).0.rows)) == multiset(Facts(z.rows))
       <==> Addresses(z, want) == [] || want.host != apex || |Split(apex, '.')| <= 2
  {
    CompensationRestores(apex, z, want, answers);
    QualifiesInZone(want.host, Hosts(z.rows), apex);
  }

  // ----- whatever the panel answers -----

  lemma AnyDelete(z: Zone, want: Want, answer: Answer)
    requires UniqueIds(z.rows, Id)
    ensures var after := AfterDelete(z, want, answer);
            && Others(after, want) == Others(z, want)
            && (Kept(z, want) != [] ==> Kept(z, want)[0] in after.rows)
  {
    var plan := PlanFor(z.rows, want);
    var ids := if answer.accepted then Ids(plan.delete, Id) else Ids(plan.delete, Id) * answer.effective;
    FilterIn(z.rows, At(want.host));
    FilterIn(Addresses(z, want), Match(want));
    forall x | x in z.rows && Id(x) in Ids(plan.delete, Id)
      ensures At(want.host)(x) && (plan.add || x != Kept(z, want)[0])
    {
      DeletedExactly(z.rows, Id, At(want.host), Addresses(z, want), Match(want), x);
    }
    FilterIn(z.rows, Not(IdIn(Id, ids)));
    FilterImplied(z.rows, Not(IdIn(Id, ids)), Not(At(want.host)));
    if Kept(z, want) != [] {
      assert Kept(z, want)[0] in Kept(z, want);
    }
  }

  predicate TakesEffect(answer: Answer, i: nat) { answer.accepted || i in answer.effective }

  /** The added record becomes an address record at the host. */
  predicate Lands(apex: string, a: Add, want: Want) {
    Qualify(a.relative, apex) == want.host && a.kind in ADDRESS_TYPES
  }

  lemma {:induction false} AnyAdds(apex: string, z: Zone, want: Want, adds: seq<Add>, answer: Answer, n: nat)
    requires n <= |adds|
    ensures var after := Added(apex, z, adds, answer, n);
      && z.rows <= after.rows && Others(z, want) <= Others(after, want)
      && (Others(after, want) == Others(z, want)
          <==> forall i | 0 <= i < n && TakesEffect(answer, i) :: Lands(apex, adds[i], want))
  {
    if n > 0 {
      AnyAdds(apex, z, want, adds, answer, n - 1);
      PutStage(apex, Added(apex, z, adds, answer, n - 1), want, adds[n - 1]);
      assert TakesEffect(answer, n - 1) <==> answer.accepted || n - 1 in answer.effective;
    }
  }

  lemma DeletedAtHost(rows: seq<Row>, want: Want)
    ensures var deleted := DeletedRows(rows, want);
      forall i | 0 <= i < |deleted| :: deleted[i].host == want.host && deleted[i].kind in ADDRESS_TYPES
  {
    var deleted := DeletedRows(rows, want);
    FilterIn(rows, At(want.host));
    FilterIn(Filter(rows, At(want.host)), IdIn(Id, Ids(PlanFor(rows, want).delete, Id)));
    forall i | 0 <= i < |deleted| ensures deleted[i].host == want.host && deleted[i].kind in ADDRESS_TYPES {
      assert deleted[i] in deleted;
    }
  }

  /** The handler gets as far as adding a record. */
  predicate Adds(z: Zone, want: Want, answers: Answers) {
    var plan := PlanFor(z.rows, want);
    plan.add && (plan.delete == [] || answers.delete.accepted)
  }

  /** An operation that takes effect puts a record elsewhere: the added one, or one that is put back. */
  ghost predicate Misplaces(apex: string, z: Zone, want: Want, answers: Answers) {
    && Adds(z, want, answers)
    && (|| (TakesEffect(answers.add, 0) && !(Named(apex, z, want) && want.kind in ADDRESS_TYPES))
        || (&& !answers.add.accepted && !Named(apex, z, want)
            && exists i | 0 <= i < |DeletedRows(z.rows, want)| :: TakesEffect(answers.restore, i)))
  }

  lemma AddKeeps(apex: string, z: Zone, want: Want, answers: Answers)
    requires UniqueIds(z.rows, Id)
    ensures var after := AfterAdd(apex, z, want, answers);
      && AfterDelete(z, want, answers.delete).rows <= after.rows && Others(z, want) <= Others(after, want)
      && (Others(after, want) == Others(z, want)
          <==> (TakesEffect(answers.add, 0) ==> Named(apex, z, want) && want.kind in ADDRESS_TYPES))
  {
    AnyDelete(z, want, answers.delete);
    var adds := [AddFor(want, Hosts(z.rows))];
    AnyAdds(apex, AfterDelete(z, want, answers.delete), want, adds, answers.add, 1);
    assert Lands(apex, adds[0], want) <==> Named(apex, z, want) && want.kind in ADDRESS_TYPES;
  }

  lemma RestoreKeeps(apex: string, z: Zone, want: Want, answers: Answers)
    ensures var before, after := AfterAdd(apex, z, want, answers), AfterRestore(apex, z, want, answers);
      && before.rows <= after.rows && Others(before, want) <= Others(after, want)
      && (Others(after, want) == Others(before, want)
          <==> || Named(apex, z, want)
               || !exists i | 0 <= i < |DeletedRows(z.rows, want)| :: TakesEffect(answers.restore, i))
  {
    var deleted := DeletedRows(z.rows, want);
    var restores := Restores(deleted, Hosts(z.rows));
    DeletedAtHost(z.rows, want);
    AnyAdds(apex, AfterAdd(apex, z, want, answers), want, restores, answers.restore, |restores|);
    assert forall i | 0 <= i < |restores| :: Lands(apex, restores[i], want) <==> Named(apex, z, want);
  }

  /**
   * Whatever the panel answers at each stage, the records of other hosts and other types stay, in their order, and
   * a record that matched before the replacement is still there. Nothing is put beside them exactly if no operation
   * that takes effect puts a record elsewhere.
   */
  lemma OthersUntouched(apex: string, z: Zone, want: Want, answers: Answers)
    requires UniqueIds(z.rows, Id)
    ensures var after := Replaced(apex, z, want, answers).0;
      && Others(z, want) <= Others(after, want)
      && (Kept(z, want) != [] ==> Kept(z, want)[0] in after.rows)
      && (Others(after, want) == Others(z, want) <==> !Misplaces(apex, z, want, answers))
  {
    AnyDelete(z, want, answers.delete);
    AddKeeps(apex, z, want, answers);
    RestoreKeeps(apex, z, want, answers);
    KeptWasThere(z, want);
  }

  lemma KeptWasThere(z: Zone, want: Want)
    ensures Kept(z, want) != [] ==> Kept(z, want)[0] in z.rows
  {
    FilterIn(z.rows, At(want.host));
    FilterIn(Addresses(z, want), Match(want));
    if Kept(z, want) != [] {
      assert Kept(z, want)[0] in Kept(z, want);
    }
  }

  /**
   * A delete packet that is refused is not compensated. It has lost exactly the planned records on which it took
   * effect, and nothing exactly if it took effect on none.
   */
  lemma RefusedDeleteLosesExactly(apex: string, z: Zone, want: Want, answers: Answers)
    requires UniqueIds(z.rows, Id) && PlanFor(z.rows, want).delete != [] && !answers.delete.accepted
    ensures var (after, outcome) := Replaced(apex, z, want, answers);
      && outcome == DeleteFailed
      && (forall row | row in z.rows ::
            row !in after.rows <==> row in PlanFor(z.rows, want).delete && row.id in answers.delete.effective)
      && (after == z <==> forall row | row in PlanFor(z.rows, want).delete :: row.id !in answers.delete.effective)
  {
    var delete := PlanFor(z.rows, want).delete;
    var gone := Ids(delete, Id) * answers.delete.effective;
    var after := AfterDelete(z, want, answers.delete);
    FilterIn(z.rows, Not(IdIn(Id, gone)));
    PlannedAreListed(z, want);
    forall row | row in z.rows ensures row.id in Ids(delete, Id) <==> row in delete {
      PlannedById(z.rows, delete, row);
    }
    if forall row | row in delete :: row.id !in answers.delete.effective {
      FilterAll(z.rows, Not(IdIn(Id, gone)));
    } else {
      var row :| row in delete && row.id in answers.delete.effective;
      assert row in z.rows && row !in after.rows;
    }
  }

  lemma PlannedAreListed(z: Zone, want: Want)
    ensures forall row | row in PlanFor(z.rows, want).delete :: row in z.rows
  {
    FilterIn(z.rows, At(want.host));
    FilterIn(Addresses(z, want), Spare(Kept(z, want)));
  }

  lemma PlannedById(rows: seq<Row>, delete: seq<Row>, row: Row)
    requires UniqueIds(rows, Id) && row in rows && forall other | other in delete :: other in rows
    ensures row.id in Ids(delete, Id) <==> row in delete
  {
    if row.id in Ids(delete, Id) {
      var i :| 0 <= i < |delete| && Id(delete[i]) == row.id;
      SameId(rows, Id, row, delete[i]);
    }
  }
}
