/**
 * Replacing the address records at a host: of the records that already match the request one is kept, the others
 * go, and a new one is added if none matched. Both DNS providers plan this way.
 */
module RecordPlans {
  import opened Filtering

  const ADDRESS_TYPES := {"A", "AAAA", "CNAME"}

  ghost predicate UniqueIds<T(!new), K>(rows: seq<T>, id: T -> K) {
    forall i, j | 0 <= i < j < |rows| :: id(rows[i]) != id(rows[j])
  }

  function Ids<T, K(==)>(rows: seq<T>, id: T -> K): set<K> { set i | 0 <= i < |rows| :: id(rows[i]) }

  function IdIn<T, K(==)>(id: T -> K, ids: set<K>): T -> bool { x => id(x) in ids }

  /** The records whose identifier is none of these. */
  function Without<T, K(==)>(rows: seq<T>, id: T -> K, ids: set<K>): seq<T> { Filter(rows, Not(IdIn(id, ids))) }

  /** All but the first match. */
  function Spare<T(==)>(matching: seq<T>): T -> bool { x => matching == [] || x != matching[0] }

  /** The records to delete, and whether one must be added; `addresses` are the address records at the host. */
  datatype Plan<T> = Plan(delete: seq<T>, add: bool)
  {
    predicate Changed() { delete != [] || add }
  }

  function PlanOn<T(==)>(addresses: seq<T>, exact: T -> bool): Plan<T> {
    var matching := Filter(addresses, exact);
    Plan(Filter(addresses, Spare(matching)), matching == [])
  }

  lemma {:induction false} UniqueCount<T(!new), K>(rows: seq<T>, id: T -> K, x: T)
    requires UniqueIds(rows, id)
    ensures multiset(rows)[x] <= 1
  {
    if rows != [] {
      var rest := rows[1..];
      assert rows == [rows[0]] + rest;
      assert forall k | 0 <= k < |rest| :: rest[k] == rows[k + 1];
      UniqueCount(rest, id, x);
      assert rows[0] !in rest;
    }
  }

  // ----- what a plan leaves -----

  /**
   * Deleting what was planned leaves every other record where it was, and of the address records the first that
   * matched, or none if one is to be added.
   */
  lemma PlannedDeletes<T(!new), K(!new)>(rows: seq<T>, id: T -> K, at: T -> bool, addresses: seq<T>, exact: T -> bool)
    requires UniqueIds(rows, id) && multiset(addresses) == multiset(Filter(rows, at))
    ensures var plan, matching := PlanOn(addresses, exact), Filter(addresses, exact);
            var left := Without(rows, id, Ids(plan.delete, id));
            && Filter(left, Not(at)) == Filter(rows, Not(at))
            && Filter(left, at) == if plan.add then [] else [matching[0]]
  {
    var plan, matching := PlanOn(addresses, exact), Filter(addresses, exact);
    var ids := Ids(plan.delete, id);
    var left := Without(rows, id, ids);
    forall x | x in rows ensures id(x) in ids <==> at(x) && (plan.add || x != matching[0]) {
      DeletedExactly(rows, id, at, addresses, exact, x);
    }
    FilterImplied(rows, Not(IdIn(id, ids)), Not(at));
    FilterIn(rows, Not(IdIn(id, ids)));
    if plan.add {
      FilterNone(left, at);
    } else {
      FilterIn(addresses, exact);
      assert matching[0] in matching && matching[0] in multiset(addresses);
      FilterIn(rows, at);
      forall x ensures multiset(Filter(left, at))[x] == if x == matching[0] then 1 else 0 {
        FilterCount(left, at, x);
        FilterCount(rows, Not(IdIn(id, ids)), x);
        UniqueCount(rows, id, x);
      }
      Single(Filter(left, at), matching[0]);
    }
  }

  lemma DeletedExactly<T(!new), K>(
    rows: seq<T>, id: T -> K, at: T -> bool, addresses: seq<T>, exact: T -> bool, x: T)
    requires UniqueIds(rows, id) && multiset(addresses) == multiset(Filter(rows, at)) && x in rows
    ensures var plan, matching := PlanOn(addresses, exact), Filter(addresses, exact);
            id(x) in Ids(plan.delete, id) <==> at(x) && (plan.add || x != matching[0])
  {
    var plan, matching := PlanOn(addresses, exact), Filter(addresses, exact);
    FilterIn(addresses, Spare(matching));
    FilterIn(rows, at);
    assert x in addresses <==> x in multiset(addresses);
    if id(x) in Ids(plan.delete, id) {
      var i :| 0 <= i < |plan.delete| && id(plan.delete[i]) == id(x);
      var y := plan.delete[i];
      assert y in plan.delete && y in multiset(addresses);
      assert y in rows;
      SameId(rows, id, x, y);
    }
  }

  lemma SameId<T(!new), K>(rows: seq<T>, id: T -> K, x: T, y: T)
    requires UniqueIds(rows, id) && x in rows && y in rows && id(x) == id(y)
    ensures x == y
  {
    var i :| 0 <= i < |rows| && rows[i] == x;
    var j :| 0 <= j < |rows| && rows[j] == y;
    assert i < j || j < i || i == j;
  }

  /** Once a single record, a matching one, is left, there is nothing more to plan. */
  lemma NothingMore<T>(e: T, exact: T -> bool)
    requires exact(e)
    ensures PlanOn([e], exact) == Plan([], false)
  {
    assert [e][1..] == [];
    assert Filter([e], exact) == [e];
    FilterNone([e], Spare([e]));
  }
}
