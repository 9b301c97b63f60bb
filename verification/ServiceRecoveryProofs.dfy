/** What every interleaved run of the recovery scheduler keeps. */
module ServiceRecoveryProofs {
  import opened ServiceRecovery

  /******* The priority order *******/

  ghost predicate Sorted(q: seq<Action>) {
    forall i, j :: 0 <= i < j < |q| ==> Rank(q[i].priority) <= Rank(q[j].priority)
  }

  // The actions of one priority, in queue order.
  function OfPriority(q: seq<Action>, p: Priority): seq<Action> {
    if q == [] then []
    else if q[0].priority == p then [q[0]] + OfPriority(q[1..], p)
    else OfPriority(q[1..], p)
  }

  ghost predicate SameOrders(r: seq<Action>, q: seq<Action>) {
    forall p :: OfPriority(r, p) == OfPriority(q, p)
  }

  lemma {:induction false} InsertSorted(a: Action, q: seq<Action>)
    requires Sorted(q)
    ensures Sorted(Insert(a, q))
    ensures forall x :: x in Insert(a, q) <==> x == a || x in q
  {
    if q == [] || Rank(a.priority) <= Rank(q[0].priority) {
    } else {
      InsertSorted(a, q[1..]);
      assert q == [q[0]] + q[1..];
      assert forall x :: x in Insert(a, q[1..]) ==> Rank(q[0].priority) <= Rank(x.priority);
    }
  }

  lemma {:induction false} InsertKeepsAll(a: Action, q: seq<Action>)
    ensures multiset(Insert(a, q)) == multiset{a} + multiset(q)
  {
    if q != [] && Rank(a.priority) > Rank(q[0].priority) {
      InsertKeepsAll(a, q[1..]);
      assert q == [q[0]] + q[1..];
    }
  }

  lemma {:induction false} InsertStable(a: Action, q: seq<Action>, p: Priority)
    requires Sorted(q)
    ensures OfPriority(Insert(a, q), p) == OfPriority([a] + q, p)
  {
    if q == [] || Rank(a.priority) <= Rank(q[0].priority) {
      assert ([a] + q)[1..] == q;
    } else {
      InsertStable(a, q[1..], p);
      assert Insert(a, q)[1..] == Insert(a, q[1..]);
      assert ([a] + q)[1..] == q && ([a] + q[1..])[1..] == q[1..];
    }
  }

  // Sorting keeps every action exactly once, orders by urgency, and keeps first-in
  // first-out order within a priority.
  lemma {:induction false} SortIsStable(q: seq<Action>)
    ensures Sorted(StableSort(q))
    ensures multiset(StableSort(q)) == multiset(q)
    ensures |StableSort(q)| == |q|
    ensures SameOrders(StableSort(q), q)
  {
    if q != [] {
      SortIsStable(q[1..]);
      InsertSorted(q[0], StableSort(q[1..]));
      InsertKeepsAll(q[0], StableSort(q[1..]));
      assert q == [q[0]] + q[1..];
      assert |multiset(StableSort(q))| == |multiset(q)|;
      forall p ensures OfPriority(StableSort(q), p) == OfPriority(q, p) {
        InsertStable(q[0], StableSort(q[1..]), p);
        assert ([q[0]] + StableSort(q[1..]))[1..] == StableSort(q[1..]);
      }
    }
  }

  lemma {:induction false} FirstOfPriority(q: seq<Action>, p: Priority)
    ensures OfPriority(q, p) != [] ==> OfPriority(q, p)[0] in q && OfPriority(q, p)[0].priority == p
    ensures OfPriority(q, p) == [] <==> forall x :: x in q ==> x.priority != p
  {
    if q != [] {
      FirstOfPriority(q[1..], p);
      assert q == [q[0]] + q[1..];
    }
  }

  // The head of a sorted queue is at least as urgent as any other queue with the same
  // per-priority orders allows.
  lemma HeadIsUrgent(r: seq<Action>, q: seq<Action>)
    requires r != [] && q != [] && Sorted(r)
    requires SameOrders(r, q)
    ensures Rank(r[0].priority) <= Rank(q[0].priority)
  {
    var p := q[0].priority;
    FirstOfPriority(r, p);
    assert OfPriority(q, p)[0] == q[0];
    assert OfPriority(r, p)[0] in r;
  }

  // There is only one sorted queue with given per-priority orders.
  lemma {:induction false} StableOrderIsUnique(r: seq<Action>, q: seq<Action>)
    requires Sorted(r) && Sorted(q)
    requires SameOrders(r, q)
    ensures r == q
  {
    if r == [] || q == [] {
      if q != [] { FirstOfPriority(q, q[0].priority); }
      if r != [] { FirstOfPriority(r, r[0].priority); }
    } else {
      HeadIsUrgent(r, q);
      HeadIsUrgent(q, r);
      var top := r[0].priority;
      assert q[0].priority == top;
      assert OfPriority(r, top)[0] == r[0] && OfPriority(q, top)[0] == q[0];
      forall p ensures OfPriority(r[1..], p) == OfPriority(q[1..], p) {
        assert OfPriority(r, p) == OfPriority(q, p);
        if p == top {
          assert OfPriority(r, p) == [r[0]] + OfPriority(r[1..], p);
          assert OfPriority(q, p) == [q[0]] + OfPriority(q[1..], p);
          assert OfPriority(r, p)[1..] == OfPriority(r[1..], p);
        }
      }
      StableOrderIsUnique(r[1..], q[1..]);
      assert r == [r[0]] + r[1..] && q == [q[0]] + q[1..];
    }
  }

  // A stable sort by priority can only return StableSort of the queue.
  lemma SortCharacterised(r: seq<Action>, q: seq<Action>)
    ensures r == StableSort(q) <==>
      Sorted(r) && SameOrders(r, q)
  {
    SortIsStable(q);
    if Sorted(r) && SameOrders(r, q) {
      forall p ensures OfPriority(r, p) == OfPriority(StableSort(q), p) {
        assert OfPriority(r, p) == OfPriority(q, p);
      }
      StableOrderIsUnique(r, StableSort(q));
    }
  }
}
