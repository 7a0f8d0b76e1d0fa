/** Reconciling an address record in a zone that Cloudflare serves, by one batch of deletes and an add. */
module CloudflareDns {
  import opened Text
  import opened Filtering
  import opened RecordPlans
  import opened Sorting

  datatype Row = Row(id: string, host: string, kind: string, value: string, ttl: int, proxied: bool)

  datatype Want = Want(host: string, kind: string, value: string, ttl: int, proxied: bool)

  datatype Outcome = Unchanged | ApiFailed | VerificationFailed(remaining: seq<Row>) | Verified(record: Row)

  function Id(row: Row): string { row.id }

  function Kind(row: Row): string { row.kind }

  function At(host: string): Row -> bool { (row: Row) => row.host == host && row.kind in ADDRESS_TYPES }

  predicate Matches(row: Row, want: Want) {
    && row.kind == want.kind && Lower(TrimRight(row.value, IsDot)) == Lower(want.value)
    && row.ttl == want.ttl && row.proxied == want.proxied
  }

  function Match(want: Want): Row -> bool { (row: Row) => Matches(row, want) }

  /** The address records at a host, by type and then by identifier. */
  function Listed(rows: seq<Row>, host: string): seq<Row> { Sorted(Sorted(Filter(rows, At(host)), Id), Kind) }

  function PlanFor(rows: seq<Row>, want: Want): Plan<Row> { PlanOn(Listed(rows, want.host), Match(want)) }

  function Added(want: Want, id: string): Row { Row(id, want.host, want.kind, want.value, want.ttl, want.proxied) }

  /** The records after an accepted batch; `id` is the identifier given to an added record. */
  function Batched(rows: seq<Row>, want: Want, plan: Plan<Row>, id: string): seq<Row> {
    Without(rows, Id, Ids(plan.delete, Id))
    + (if plan.add then [Added(want, id)] else [])
  }

  function ReadBack(rows: seq<Row>, want: Want): Outcome {
    var remaining := Listed(rows, want.host);
    if |remaining| == 1 && Matches(remaining[0], want) then Verified(remaining[0]) else VerificationFailed(remaining)
  }

  function Reconciled(rows: seq<Row>, want: Want, accepted: bool, id: string): (seq<Row>, Outcome) {
    var plan := PlanFor(rows, want);
    if !plan.Changed() then (rows, Unchanged)
    else if !accepted then (rows, ApiFailed)
    else var after := Batched(rows, want, plan, id); (after, ReadBack(after, want))
  }

  class CloudflareZone {
    var rows: seq<Row>

    constructor (initial: seq<Row>)
      ensures rows == initial
    {
      rows := initial;
    }

    /** All of the batch takes effect, or nothing does. */
    method Batch(deletes: set<string>, posts: seq<Row>, accepted: bool)
      modifies this
      ensures rows == if accepted then Without(old(rows), Id, deletes) + posts else old(rows)
    {
      if accepted {
        rows := Without(rows, Id, deletes) + posts;
      }
    }

    /** The application of a plan, once its grant has been consumed. */
    method Reconcile(want: Want, accepted: bool, id: string) returns (outcome: Outcome)
      modifies this
      ensures (rows, outcome) == Reconciled(old(rows), want, accepted, id)
    {
      var plan := PlanFor(rows, want);
      if !plan.Changed() {
        return Unchanged;
      }
      Batch(
        Ids(plan.delete, Id),
        if plan.add then [Added(want, id)] else [],
        accepted);
      if !accepted {
        return ApiFailed;
      }
      outcome := ReadBack(rows, want);
    }
  }

  // ----- convergence -----

  lemma ListedElements(rows: seq<Row>, host: string)
    ensures multiset(Listed(rows, host)) == multiset(Filter(rows, At(host)))
  {
    SortedOrdered(Filter(rows, At(host)), Id);
    SortedOrdered(Sorted(Filter(rows, At(host)), Id), Kind);
  }

  lemma ListedOne(rows: seq<Row>, host: string, row: Row)
    requires Filter(rows, At(host)) == [row]
    ensures Listed(rows, host) == [row]
  {
    ListedElements(rows, host);
    forall x ensures multiset(Listed(rows, host))[x] == if x == row then 1 else 0 {
    }
    Single(Listed(rows, host), row);
  }

  /** The value as validation leaves it, of an address type. */
  predicate Sound(want: Want) { want.kind in ADDRESS_TYPES && TrimRight(want.value, IsDot) == want.value }

  /**
   * After an accepted batch the read-back passes: one address record is at the host, it is as requested, and it
   * is one that already matched if there was one. All other records are as before, and replanning finds nothing.
   */
  lemma ReconcileConverges(rows: seq<Row>, want: Want, id: string)
    requires UniqueIds(rows, Id) && Sound(want) && PlanFor(rows, want).Changed()
    ensures var (after, outcome) := Reconciled(rows, want, true, id);
      && outcome.Verified? && Matches(outcome.record, want)
      && Filter(after, At(want.host)) == [outcome.record]
      && Filter(after, Not(At(want.host))) == Filter(rows, Not(At(want.host)))
      && (outcome.record in rows || forall row | row in rows && row.host == want.host :: !Matches(row, want))
      && Reconciled(after, want, true, id) == (after, Unchanged)
  {
    var plan, after := PlanFor(rows, want), Batched(rows, want, PlanFor(rows, want), id);
    BatchLeaves(rows, want, id);
    if plan.add {
      forall row | row in rows && row.host == want.host ensures !Matches(row, want) {
        InMatching(rows, want, row);
      }
      OneLeft(after, want, Added(want, id));
    } else {
      var row := Filter(Listed(rows, want.host), Match(want))[0];
      InMatching(rows, want, row);
      OneLeft(after, want, row);
    }
  }

  lemma WithAdded(rows: seq<Row>, host: string, row: Row)
    requires At(host)(row)
    ensures Filter(rows + [row], At(host)) == Filter(rows, At(host)) + [row]
    ensures Filter(rows + [row], Not(At(host))) == Filter(rows, Not(At(host)))
  {
    FilterAppend(rows, [row], At(host));
    FilterAppend(rows, [row], Not(At(host)));
    assert [row][1..] == [];
  }

  lemma BatchLeaves(rows: seq<Row>, want: Want, id: string)
    requires UniqueIds(rows, Id) && Sound(want)
    ensures var plan, matching := PlanFor(rows, want), Filter(Listed(rows, want.host), Match(want));
            var after := Batched(rows, want, plan, id);
      && Filter(after, At(want.host)) == [if plan.add then Added(want, id) else matching[0]]
      && Filter(after, Not(At(want.host))) == Filter(rows, Not(At(want.host)))
  {
    var plan := PlanFor(rows, want);
    var left := Without(rows, Id, Ids(plan.delete, Id));
    ListedElements(rows, want.host);
    PlannedDeletes(rows, Id, At(want.host), Listed(rows, want.host), Match(want));
    if plan.add {
      WithAdded(left, want.host, Added(want, id));
    } else {
      assert left + [] == left;
    }
  }

  lemma InListed(rows: seq<Row>, host: string, row: Row)
    ensures row in Listed(rows, host) <==> row in rows && row.host == host && row.kind in ADDRESS_TYPES
  {
    ListedElements(rows, host);
    FilterCount(rows, At(host), row);
    assert row in Listed(rows, host) <==> row in multiset(Listed(rows, host));
    assert row in rows <==> row in multiset(rows);
  }

  lemma InMatching(rows: seq<Row>, want: Want, row: Row)
    ensures row in Filter(Listed(rows, want.host), Match(want))
       <==> row in rows && row.host == want.host && row.kind in ADDRESS_TYPES && Matches(row, want)
  {
    InListed(rows, want.host, row);
    FilterIn(Listed(rows, want.host), Match(want));
  }

  lemma OneLeft(rows: seq<Row>, want: Want, row: Row)
    requires Filter(rows, At(want.host)) == [row] && Matches(row, want)
    ensures ReadBack(rows, want) == Verified(row) && PlanFor(rows, want) == Plan([], false)
  {
    ListedOne(rows, want.host, row);
    NothingMore(row, Match(want));
  }

  // ----- what the answers mean, field by field -----

  ghost predicate AsRequested(row: Row, want: Want) {
    && row.host == want.host && row.kind == want.kind && row.ttl == want.ttl && row.proxied == want.proxied
    && Lower(TrimRight(row.value, IsDot)) == Lower(want.value)
  }

  ghost predicate OnlyAddress(rows: seq<Row>, row: Row, host: string) {
    && row in rows && row.host == host
    && forall other | other in rows && other.host == host && other.kind in {"A", "AAAA", "CNAME"} :: other == row
  }

  lemma ListedOnly(rows: seq<Row>, host: string, row: Row)
    requires Listed(rows, host) == [row]
    ensures OnlyAddress(rows, row, host)
  {
    InListed(rows, host, row);
    forall other | other in rows && other.host == host && other.kind in {"A", "AAAA", "CNAME"} ensures other == row {
      InListed(rows, host, other);
    }
  }

  /** A verified record is as requested and the only address record left at the host. */
  lemma VerifiedIsAsRequested(rows: seq<Row>, want: Want, accepted: bool, id: string)
    requires Reconciled(rows, want, accepted, id).1.Verified?
    ensures var (after, outcome) := Reconciled(rows, want, accepted, id);
            accepted && AsRequested(outcome.record, want) && OnlyAddress(after, outcome.record, want.host)
  {
    var (after, outcome) := Reconciled(rows, want, accepted, id);
    var left := Listed(after, want.host);
    assert left == [left[0]] && outcome.record == left[0];
    ListedOnly(after, want.host, left[0]);
  }

  lemma {:induction false} FilterOrdered(rows: seq<Row>, p: Row -> bool)
    requires Ordered(rows, Id)
    ensures Ordered(Filter(rows, p), Id)
  {
    if rows != [] {
      var rest := rows[1..];
      assert rows == [rows[0]] + rest;
      OrderedCons(rows[0], rest, Id);
      FilterOrdered(rest, p);
      FilterIn(rest, p);
      OrderedCons(rows[0], Filter(rest, p), Id);
      assert Filter(rows, p) == if p(rows[0]) then [rows[0]] + Filter(rest, p) else Filter(rest, p);
    }
  }

  lemma MatchingOfKind(rows: seq<Row>, want: Want)
    ensures Filter(Filter(rows, KeyIs(Kind, want.kind)), Match(want)) == Filter(rows, Match(want))
  {
    FilterImplied(rows, KeyIs(Kind, want.kind), Match(want));
  }

  /** Sorting by type leaves the records that match in their order. */
  lemma MatchingByKind(rows: seq<Row>, want: Want)
    ensures Filter(Sorted(rows, Kind), Match(want)) == Filter(rows, Match(want))
  {
    SortedStable(rows, Kind, want.kind);
    MatchingOfKind(rows, want);
    MatchingOfKind(Sorted(rows, Kind), want);
  }

  lemma MatchingOrdered(rows: seq<Row>, want: Want)
    ensures Ordered(Filter(Listed(rows, want.host), Match(want)), Id)
  {
    var addresses := Filter(rows, At(want.host));
    SortedOrdered(addresses, Id);
    FilterOrdered(Sorted(addresses, Id), Match(want));
    MatchingByKind(Sorted(addresses, Id), want);
  }

  /** Of several records that are as requested the one with the least identifier is kept. */
  lemma LeastIsKept(rows: seq<Row>, want: Want, id: string, row: Row)
    requires UniqueIds(rows, Id) && Sound(want) && PlanFor(rows, want).Changed()
    requires row in rows && AsRequested(row, want)
    ensures var outcome := Reconciled(rows, want, true, id).1;
            outcome.Verified? && outcome.record in rows && Leq(outcome.record.id, row.id)
  {
    var matching := Filter(Listed(rows, want.host), Match(want));
    MatchingOrdered(rows, want);
    InMatching(rows, want, row);
    BatchLeaves(rows, want, id);
    var i :| 0 <= i < |matching| && matching[i] == row;
    LeqTotal(row.id, row.id);
    assert Leq(Id(matching[0]), Id(matching[i]));
    InMatching(rows, want, matching[0]);
    OneLeft(Batched(rows, want, PlanFor(rows, want), id), want, matching[0]);
  }

  /** Nothing is done exactly if the one address record at the host is as requested. */
  lemma UnchangedExactly(rows: seq<Row>, want: Want, accepted: bool, id: string)
    requires UniqueIds(rows, Id) && want.kind in {"A", "AAAA", "CNAME"}
    ensures Reconciled(rows, want, accepted, id).1 == Unchanged
       <==> exists row :: OnlyAddress(rows, row, want.host) && AsRequested(row, want)
  {
    var addresses := Listed(rows, want.host);
    var kept := Filter(addresses, Match(want));
    var plan := PlanFor(rows, want);
    FilterIn(addresses, Spare(kept));
    if !plan.Changed() {
      var row := kept[0];
      InMatching(rows, want, row);
      forall other | other in rows && other.host == want.host && other.kind in {"A", "AAAA", "CNAME"}
        ensures other == row
      {
        InListed(rows, want.host, other);
        assert other !in Filter(addresses, Spare(kept));
      }
      assert OnlyAddress(rows, row, want.host) && AsRequested(row, want);
    } else if row :| OnlyAddress(rows, row, want.host) && AsRequested(row, want) {
      InMatching(rows, want, row);
      SpareOfOne(rows, want, row);
    }
  }

  lemma SpareOfOne(rows: seq<Row>, want: Want, row: Row)
    requires OnlyAddress(rows, row, want.host)
    ensures forall other | other in Listed(rows, want.host) :: other == row
    ensures row in Filter(Listed(rows, want.host), Match(want)) ==> PlanFor(rows, want).delete == []
  {
    forall other | other in Listed(rows, want.host) ensures other == row {
      InListed(rows, want.host, other);
    }
    var addresses := Listed(rows, want.host);
    var kept := Filter(addresses, Match(want));
    FilterIn(addresses, Match(want));
    if row in kept {
      assert kept[0] in kept;
      FilterNone(addresses, Spare(kept));
    }
  }
}
