/** Python's `sorted` with a text key: stable, by code points. */
module Sorting {
  import opened Filtering

  predicate Leq(a: string, b: string) {
    if a == "" then true
    else if b == "" then false
    else a[0] < b[0] || (a[0] == b[0] && Leq(a[1..], b[1..]))
  }

  function Insert<T>(x: T, s: seq<T>, key: T -> string): seq<T> {
    if s == [] || Leq(key(x), key(s[0])) then [x] + s else [s[0]] + Insert(x, s[1..], key)
  }

  function Sorted<T>(s: seq<T>, key: T -> string): seq<T> {
    if s == [] then [] else Insert(s[0], Sorted(s[1..], key), key)
  }

  ghost predicate Ordered<T>(s: seq<T>, key: T -> string) {
    forall i, j | 0 <= i < j < |s| :: Leq(key(s[i]), key(s[j]))
  }

  lemma {:induction false} LeqTotal(a: string, b: string)
    ensures Leq(a, b) || Leq(b, a)
    ensures Leq(a, b) && Leq(b, a) ==> a == b
  {
    if a != "" && b != "" {
      LeqTotal(a[1..], b[1..]);
      assert a == [a[0]] + a[1..] && b == [b[0]] + b[1..];
    }
  }

  lemma {:induction false} LeqTransitive(a: string, b: string, c: string)
    requires Leq(a, b) && Leq(b, c)
    ensures Leq(a, c)
  {
    if a != "" && b != "" && c != "" && a[0] == b[0] == c[0] {
      LeqTransitive(a[1..], b[1..], c[1..]);
    }
  }

  lemma {:induction false} InsertElements<T>(x: T, s: seq<T>, key: T -> string)
    ensures multiset(Insert(x, s, key)) == multiset{x} + multiset(s)
  {
    if s != [] {
      assert s == [s[0]] + s[1..];
      InsertElements(x, s[1..], key);
    }
  }

  ghost predicate Least<T>(x: T, s: seq<T>, key: T -> string) {
    forall y | y in s :: Leq(key(x), key(y))
  }

  lemma OrderedCons<T>(x: T, s: seq<T>, key: T -> string)
    ensures Ordered([x] + s, key) <==> Ordered(s, key) && Least(x, s, key)
  {
    var t := [x] + s;
    if Ordered(t, key) {
      forall y | y in s ensures Leq(key(x), key(y)) {
        var i :| 0 <= i < |s| && s[i] == y;
        assert t[0] == x && t[i + 1] == y;
      }
      forall i, j | 0 <= i < j < |s| ensures Leq(key(s[i]), key(s[j])) {
        assert t[i + 1] == s[i] && t[j + 1] == s[j];
      }
    }
  }

  lemma {:induction false} InsertOrdered<T>(x: T, s: seq<T>, key: T -> string)
    requires Ordered(s, key)
    ensures Ordered(Insert(x, s, key), key)
  {
    OrderedCons(x, s, key);
    if s != [] {
      var head, tail := s[0], s[1..];
      assert s == [head] + tail;
      OrderedCons(head, tail, key);
      LeqTotal(key(x), key(head));
      if Leq(key(x), key(head)) {
        forall y | y in s ensures Leq(key(x), key(y)) {
          if y != head {
            LeqTransitive(key(x), key(head), key(y));
          }
        }
      } else {
        InsertOrdered(x, tail, key);
        InsertElements(x, tail, key);
        forall y | y in Insert(x, tail, key) ensures Leq(key(head), key(y)) {
          assert y in multiset(Insert(x, tail, key));
        }
        OrderedCons(head, Insert(x, tail, key), key);
      }
    }
  }

  lemma {:induction false} SortedOrdered<T>(s: seq<T>, key: T -> string)
    ensures Ordered(Sorted(s, key), key) && multiset(Sorted(s, key)) == multiset(s)
  {
    if s != [] {
      assert s == [s[0]] + s[1..];
      SortedOrdered(s[1..], key);
      InsertOrdered(s[0], Sorted(s[1..], key), key);
      InsertElements(s[0], Sorted(s[1..], key), key);
    }
  }

  ghost predicate KeyedApart<T(!new)>(s: seq<T>, key: T -> string) {
    forall x, y | x in s && y in s && key(x) == key(y) :: x == y
  }

  /** There is only one ordered arrangement of elements that differ in their keys. */
  lemma {:induction false} OrderedUnique<T(!new)>(a: seq<T>, b: seq<T>, key: T -> string)
    requires Ordered(a, key) && Ordered(b, key) && multiset(a) == multiset(b) && KeyedApart(a, key)
    ensures a == b
  {
    assert |multiset(a)| == |multiset(b)|;
    if a != [] {
      HeadsAgree(a, b, key);
      TailsAgree(a, b);
      assert forall x | x in a[1..] :: x in a;
      OrderedUnique(a[1..], b[1..], key);
      assert a == [a[0]] + a[1..] && b == [b[0]] + b[1..];
    }
  }

  lemma TailsAgree<T>(a: seq<T>, b: seq<T>)
    requires a != [] && b != [] && a[0] == b[0] && multiset(a) == multiset(b)
    ensures multiset(a[1..]) == multiset(b[1..])
  {
    assert a == [a[0]] + a[1..] && b == [b[0]] + b[1..];
    assert multiset(a) - multiset{a[0]} == multiset(a[1..]);
    assert multiset(b) - multiset{b[0]} == multiset(b[1..]);
  }

  lemma HeadsAgree<T(!new)>(a: seq<T>, b: seq<T>, key: T -> string)
    requires a != [] && b != [] && Ordered(a, key) && Ordered(b, key)
    requires multiset(a) == multiset(b) && KeyedApart(a, key)
    ensures a[0] == b[0]
  {
    assert a[0] in multiset(b) && b[0] in multiset(a);
    LeqTotal(key(a[0]), key(b[0]));
    LeqTotal(key(a[0]), key(a[0]));
    LeqTotal(key(b[0]), key(b[0]));
  }

  /** Sorting forgets the order its input came in, and nothing else. */
  lemma SortedCanonical<T(!new)>(a: seq<T>, b: seq<T>, key: T -> string)
    requires KeyedApart(a, key)
    ensures multiset(a) == multiset(b) <==> Sorted(a, key) == Sorted(b, key)
  {
    var s, t := Sorted(a, key), Sorted(b, key);
    SortedOrdered(a, key);
    SortedOrdered(b, key);
    if multiset(a) == multiset(b) {
      forall x | x in s ensures x in a {
        assert x in multiset(s);
      }
      OrderedUnique(s, t, key);
    }
  }

  // ----- stability -----

  function KeyIs<T>(key: T -> string, k: string): T -> bool { x => key(x) == k }

  lemma {:induction false} InsertStable<T>(x: T, s: seq<T>, key: T -> string, k: string)
    ensures Filter(Insert(x, s, key), KeyIs(key, k)) == Filter([x] + s, KeyIs(key, k))
  {
    var p := KeyIs(key, k);
    if s != [] && !Leq(key(x), key(s[0])) {
      var head, tail := s[0], s[1..];
      InsertStable(x, tail, key, k);
      LeqTotal(key(x), key(x));
      assert s == [head] + tail;
      FilterAppend([head], Insert(x, tail, key), p);
      FilterAppend([x], tail, p);
      FilterAppend([x], s, p);
      FilterAppend([head], tail, p);
      FilterOne(x, p);
      FilterOne(head, p);
    }
  }

  lemma FilterOne<T>(x: T, p: T -> bool)
    ensures Filter([x], p) == if p(x) then [x] else []
  {
    assert [x][1..] == [];
  }

  /** Sorting keeps the order of the elements with one key. */
  lemma {:induction false} SortedStable<T>(s: seq<T>, key: T -> string, k: string)
    ensures Filter(Sorted(s, key), KeyIs(key, k)) == Filter(s, KeyIs(key, k))
  {
    if s != [] {
      var tail := s[1..];
      assert s == [s[0]] + tail;
      SortedStable(tail, key, k);
      InsertStable(s[0], Sorted(tail, key), key, k);
      FilterAppend([s[0]], Sorted(tail, key), KeyIs(key, k));
      FilterAppend([s[0]], tail, KeyIs(key, k));
    }
  }

  ghost predicate SameByKey<T(!new)>(a: seq<T>, b: seq<T>, key: T -> string) {
    forall k :: Filter(a, KeyIs(key, k)) == Filter(b, KeyIs(key, k))
  }

  /** In the other sequence the key of the first element occurs, so that its first element is not above. */
  lemma HeadBound<T(!new)>(a: seq<T>, b: seq<T>, key: T -> string)
    requires a != [] && SameByKey(a, b, key) && Ordered(b, key)
    ensures b != [] && Leq(key(b[0]), key(a[0]))
  {
    var p := KeyIs(key, key(a[0]));
    assert Filter(a, p) == Filter(b, p);
    FilterIn(a, p);
    FilterIn(b, p);
    assert a[0] in Filter(b, p);
    var i :| 0 <= i < |b| && b[i] == a[0];
    LeqTotal(key(b[0]), key(b[0]));
  }

  /** An ordered sequence is determined by what it holds at each key, in order. */
  lemma {:induction false} OrderedByKey<T(!new)>(a: seq<T>, b: seq<T>, key: T -> string)
    requires Ordered(a, key) && Ordered(b, key) && SameByKey(a, b, key)
    ensures a == b
    decreases |a|
  {
    if a == [] {
      if b != [] {
        HeadBound(b, a, key);
      }
    } else {
      HeadBound(a, b, key);
      HeadBound(b, a, key);
      LeqTotal(key(a[0]), key(b[0]));
      var x, y, s, t := a[0], b[0], a[1..], b[1..];
      assert a == [x] + s && b == [y] + t;
      SameHeads(x, y, s, t, key);
      forall k ensures Filter(s, KeyIs(key, k)) == Filter(t, KeyIs(key, k)) {
        TailByKey(x, s, t, key, k);
      }
      assert forall i | 0 <= i < |s| :: s[i] == a[i + 1];
      assert forall i | 0 <= i < |t| :: t[i] == b[i + 1];
      OrderedByKey(s, t, key);
    }
  }

  lemma SameHeads<T(!new)>(x: T, y: T, s: seq<T>, t: seq<T>, key: T -> string)
    requires key(x) == key(y) && SameByKey([x] + s, [y] + t, key)
    ensures x == y
  {
    var p := KeyIs(key, key(x));
    assert Filter([x] + s, p) == Filter([y] + t, p);
    FilterAppend([x], s, p);
    FilterAppend([y], t, p);
    FilterOne(x, p);
    FilterOne(y, p);
    assert Filter([x] + s, p)[0] == x && Filter([y] + t, p)[0] == y;
  }

  lemma TailByKey<T(!new)>(x: T, s: seq<T>, t: seq<T>, key: T -> string, k: string)
    requires SameByKey([x] + s, [x] + t, key)
    ensures Filter(s, KeyIs(key, k)) == Filter(t, KeyIs(key, k))
  {
    var p := KeyIs(key, k);
    assert Filter([x] + s, p) == Filter([x] + t, p);
    FilterAppend([x], s, p);
    FilterAppend([x], t, p);
    var head, u, v := Filter([x], p), Filter(s, p), Filter(t, p);
    assert (head + u)[|head|..] == u && (head + v)[|head|..] == v;
  }

  /** Sorting forgets exactly how elements with different keys were ordered. */
  lemma SortedExactly<T(!new)>(a: seq<T>, b: seq<T>, key: T -> string)
    ensures Sorted(a, key) == Sorted(b, key) <==> SameByKey(a, b, key)
  {
    SortedOrdered(a, key);
    SortedOrdered(b, key);
    forall k
      ensures Filter(Sorted(a, key), KeyIs(key, k)) == Filter(a, KeyIs(key, k))
      ensures Filter(Sorted(b, key), KeyIs(key, k)) == Filter(b, KeyIs(key, k))
    {
      SortedStable(a, key, k);
      SortedStable(b, key, k);
    }
    if SameByKey(a, b, key) {
      OrderedByKey(Sorted(a, key), Sorted(b, key), key);
    }
  }
}
