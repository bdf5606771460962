/** The order in which prepared hooks are committed: hk_build_commit_order in src/core/HKPlan.c. */
module CommitOrder {
  /** What the order depends on: `after` names the hooks that must be settled first. */
  datatype Slot = Slot(prepared: bool, domainOrder: nat, commitOrder: nat, after: seq<nat>)

  /** Dependencies name hooks added earlier, which is all that adding a hook accepts. */
  predicate Backward(slots: seq<Slot>) {
    forall i, d :: 0 <= i < |slots| && d in slots[i].after ==> d < i
  }

  predicate Before(slots: seq<Slot>, i: nat, j: nat) {
    && i < |slots| && j < |slots|
    && var l, r := slots[i], slots[j];
    if l.domainOrder != r.domainOrder then l.domainOrder < r.domainOrder
    else if l.commitOrder != r.commitOrder then l.commitOrder < r.commitOrder
    else i < j
  }

  predicate Resolved(slots: seq<Slot>, done: seq<nat>, d: nat) {
    d in done || (d < |slots| && !slots[d].prepared)
  }

  /** `i` may be committed next, once `done` have been. */
  predicate Ready(slots: seq<Slot>, done: seq<nat>, i: nat) {
    && i < |slots| && slots[i].prepared && i !in done
    && forall d :: d in slots[i].after ==> Resolved(slots, done, d)
  }

  predicate ReadyAt(slots: seq<Slot>, order: seq<nat>, k: nat)
    requires k < |order|
  {
    Ready(slots, order[..k], order[k])
  }

  ghost predicate BestAt(slots: seq<Slot>, order: seq<nat>, k: nat)
    requires k < |order|
  {
    forall j: nat :: Ready(slots, order[..k], j) ==> j == order[k] || Before(slots, order[k], j)
  }

  /** Every prepared hook once, each after everything it must come after. */
  ghost predicate Topological(slots: seq<Slot>, order: seq<nat>) {
    && (forall k :: 0 <= k < |order| ==> ReadyAt(slots, order, k))
    && (forall i :: 0 <= i < |slots| && slots[i].prepared ==> i in order)
  }

  /** Nothing that could have been committed instead comes before what was. */
  ghost predicate Greedy(slots: seq<Slot>, order: seq<nat>) {
    forall k :: 0 <= k < |order| ==> BestAt(slots, order, k)
  }

  /** Lexicographic comparison of two orders by (domain order, commit order, add order). */
  ghost predicate LexLess(slots: seq<Slot>, p: seq<nat>, q: seq<nat>) {
    exists k :: 0 <= k < |p| && k < |q| && p[..k] == q[..k] && Before(slots, p[k], q[k])
  }

  /** Of all topological orders the greedy one is the lexicographically least. */
  lemma LexicographicallyLeast(slots: seq<Slot>, order: seq<nat>, other: seq<nat>)
    requires Topological(slots, order) && Greedy(slots, order) && Topological(slots, other)
    ensures order == other || LexLess(slots, order, other)
  {
    var k := 0;
    while k < |order| && k < |other| && order[k] == other[k]
      invariant k <= |order| && k <= |other| && order[..k] == other[..k]
    {
      assert order[..k + 1] == order[..k] + [order[k]] && other[..k + 1] == other[..k] + [other[k]];
      k := k + 1;
    }
    if k < |order| && k < |other| {
      assert ReadyAt(slots, other, k) && BestAt(slots, order, k);
    } else {
      assert order[..k] == other[..k];
      SameLength(slots, order, other);
    }
  }

  // A topological order is no proper prefix of another: both hold every prepared hook once.
  lemma SameLength(slots: seq<Slot>, p: seq<nat>, q: seq<nat>)
    requires Topological(slots, p) && Topological(slots, q)
    requires p <= q || q <= p
    ensures p == q
  {
    if |p| < |q| {
      NotInPrefix(slots, p, q);
    } else if |q| < |p| {
      NotInPrefix(slots, q, p);
    }
  }

  lemma NotInPrefix(slots: seq<Slot>, p: seq<nat>, q: seq<nat>)
    requires p < q && Topological(slots, q)
    ensures q[|p|] !in p && q[|p|] < |slots| && slots[q[|p|]].prepared
  {
    assert q[..|p|] == p && ReadyAt(slots, q, |p|);
  }

  /** Hooks that wait for nothing come in the order of their domains, then in their own commit order, then
      as they were added. */
  lemma IndependentInOrder(slots: seq<Slot>, order: seq<nat>, i: nat, j: nat) returns (k: nat, l: nat)
    requires Topological(slots, order) && Greedy(slots, order) && i < |slots| && j < |slots|
    requires slots[i].prepared && slots[j].prepared && slots[i].after == [] && slots[j].after == []
    requires slots[i].domainOrder < slots[j].domainOrder ||
             (slots[i].domainOrder == slots[j].domainOrder &&
              (slots[i].commitOrder < slots[j].commitOrder || (slots[i].commitOrder == slots[j].commitOrder && i < j)))
    ensures k < l < |order| && order[k] == i && order[l] == j
  {
    k :| 0 <= k < |order| && order[k] == i;
    l :| 0 <= l < |order| && order[l] == j;
    assert ReadyAt(slots, order, k) && ReadyAt(slots, order, l);
    assert BestAt(slots, order, l);
    assert l < k ==> order[..k][..l] == order[..l];
    assert l < k ==> Ready(slots, order[..l], i);
  }

  /** A prepared hook comes after every prepared one it names. */
  lemma NamedFirst(slots: seq<Slot>, order: seq<nat>, i: nat, d: nat) returns (k: nat, l: nat)
    requires Topological(slots, order) && i < |slots| && d < |slots| && slots[i].prepared && slots[d].prepared && d in slots[i].after
    ensures k < l < |order| && order[k] == d && order[l] == i
  {
    l :| 0 <= l < |order| && order[l] == i;
    assert ReadyAt(slots, order, l);
    k :| 0 <= k < l && order[..l][k] == d;
  }

  /** There is only one: the fast path gives what the general selection gives. */
  lemma GreedyIsUnique(slots: seq<Slot>, p: seq<nat>, q: seq<nat>)
    requires Topological(slots, p) && Greedy(slots, p) && Topological(slots, q) && Greedy(slots, q)
    ensures p == q
  {
    var k := 0;
    while k < |p| && k < |q|
      invariant k <= |p| && k <= |q| && p[..k] == q[..k]
    {
      assert ReadyAt(slots, p, k) && ReadyAt(slots, q, k) && BestAt(slots, p, k) && BestAt(slots, q, k);
      assert p[..k + 1] == p[..k] + [p[k]] && q[..k + 1] == q[..k] + [q[k]];
      k := k + 1;
    }
    SameLength(slots, p, q);
  }

  // ---- computing it ----

  predicate Uniform(slots: seq<Slot>, key: seq<nat>) {
    forall i :: 0 <= i < |slots| && slots[i].prepared ==>
      slots[i].after == [] && key == [slots[i].domainOrder, slots[i].commitOrder]
  }

  function Left(slots: seq<Slot>, done: seq<nat>, n: nat): (count: nat)
    requires n <= |slots|
  {
    if n == 0 then 0
    else Left(slots, done, n - 1) + (if slots[n - 1].prepared && n - 1 !in done then 1 else 0)
  }

  lemma {:induction false} LeftStep(slots: seq<Slot>, done: seq<nat>, best: nat, n: nat)
    requires n <= |slots| && best < |slots| && slots[best].prepared && best !in done
    ensures Left(slots, done, n) == Left(slots, done + [best], n) + (if best < n then 1 else 0)
  {
    if n == 0 {
    } else {
      LeftStep(slots, done, best, n - 1);
    }
  }

  lemma {:induction false} LeftNone(slots: seq<Slot>, done: seq<nat>, n: nat)
    requires n <= |slots|
    ensures Left(slots, done, n) == 0 <==> forall i :: 0 <= i < n && slots[i].prepared ==> i in done
  {
    if n == 0 {
    } else {
      LeftNone(slots, done, n - 1);
    }
  }

  /** While prepared hooks are left, the one added first can be committed: dependencies never
      make the selection fail. */
  lemma SomethingIsReady(slots: seq<Slot>, done: seq<nat>) returns (i: nat)
    requires Backward(slots) && Left(slots, done, |slots|) > 0
    ensures Ready(slots, done, i)
  {
    LeftNone(slots, done, |slots|);
    i := 0;
    while !(slots[i].prepared && i !in done)
      invariant i < |slots|
      invariant forall j :: 0 <= j < i && slots[j].prepared ==> j in done
      decreases |slots| - i
    {
      if i + 1 == |slots| {
        assert false;
      }
      i := i + 1;
    }
  }

  method BuildCommitOrder(slots: seq<Slot>) returns (order: seq<nat>)
    requires Backward(slots)
    ensures Topological(slots, order) && Greedy(slots, order)
  {
    var simple := true;
    var key: seq<nat> := [];
    var prepared := 0;
    for i := 0 to |slots|
      invariant |key| in {0, 2} && (key == [] ==> forall j :: 0 <= j < i ==> !slots[j].prepared)
      invariant simple ==> Uniform(slots[..i], key)
      invariant prepared == Left(slots, [], i)
    {
      assert slots[..i + 1] == slots[..i] + [slots[i]];
      if slots[i].prepared {
        prepared := prepared + 1;
        if slots[i].after != [] {
          simple := false;
        }
        if key == [] {
          key := [slots[i].domainOrder, slots[i].commitOrder];
        } else if slots[i].domainOrder != key[0] || slots[i].commitOrder != key[1] {
          simple := false;
        }
      }
    }
    if simple {
      assert slots[..|slots|] == slots;
      order := AddOrder(slots, key);
    } else {
      order := Select(slots, prepared);
    }
  }

  /** Without dependencies and with a single key, add order is the order. */
  method AddOrder(slots: seq<Slot>, ghost key: seq<nat>) returns (order: seq<nat>)
    requires Uniform(slots, key)
    ensures Topological(slots, order) && Greedy(slots, order)
  {
    order := [];
    for i := 0 to |slots|
      invariant forall j :: 0 <= j < i && slots[j].prepared ==> j in order
      invariant forall k :: 0 <= k < |order| ==> order[k] < i && slots[order[k]].prepared
      invariant forall k, l :: 0 <= k < l < |order| ==> order[k] < order[l]
    {
      if slots[i].prepared {
        order := order + [i];
      }
    }
    forall k | 0 <= k < |order|
      ensures ReadyAt(slots, order, k) && BestAt(slots, order, k)
    {
      assert forall l :: 0 <= l < k ==> order[l] in order[..k];
      forall j: nat | Ready(slots, order[..k], j)
        ensures j == order[k] || Before(slots, order[k], j)
      {
        var l :| 0 <= l < |order| && order[l] == j;
        assert l >= k;
      }
    }
  }

  /** Otherwise the best of the ready ones is selected, one at a time. */
  method Select(slots: seq<Slot>, prepared: nat) returns (order: seq<nat>)
    requires Backward(slots) && prepared == Left(slots, [], |slots|)
    ensures Topological(slots, order) && Greedy(slots, order)
  {
    order := [];
    for step := 0 to prepared
      invariant |order| == step
      invariant Left(slots, order, |slots|) == prepared - step
      invariant forall k :: 0 <= k < |order| ==> ReadyAt(slots, order, k)
      invariant Greedy(slots, order)
    {
      var best: nat := |slots|;
      ghost var some := SomethingIsReady(slots, order);
      for i := 0 to |slots|
        invariant best == |slots| ==> forall j: nat :: j < i ==> !Ready(slots, order, j)
        invariant best < |slots| ==> Ready(slots, order, best)
        invariant best < |slots| ==> forall j: nat :: j < i && Ready(slots, order, j) ==> j == best || Before(slots, best, j)
        invariant best <= |slots|
      {
        if Ready(slots, order, i) && (best == |slots| || Before(slots, i, best)) {
          best := i;
        }
      }
      LeftStep(slots, order, best, |slots|);
      GreedyStep(slots, order, best);
      order := order + [best];
    }
    LeftNone(slots, order, |slots|);
  }

  lemma GreedyStep(slots: seq<Slot>, order: seq<nat>, best: nat)
    requires Greedy(slots, order) && (forall k :: 0 <= k < |order| ==> ReadyAt(slots, order, k))
    requires Ready(slots, order, best)
    requires forall j: nat :: Ready(slots, order, j) ==> j == best || Before(slots, best, j)
    ensures Greedy(slots, order + [best])
    ensures forall k :: 0 <= k <= |order| ==> ReadyAt(slots, order + [best], k)
  {
    forall k | 0 <= k <= |order|
      ensures ReadyAt(slots, order + [best], k) && BestAt(slots, order + [best], k)
    {
      assert (order + [best])[..k] == order[..k];
      assert order[..|order|] == order;
      assert k < |order| ==> ReadyAt(slots, order, k) && BestAt(slots, order, k);
    }
  }
}
