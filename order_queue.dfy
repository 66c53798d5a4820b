/** The queue of inferred orders at one price level (a `VecDeque<Decimal>`,
    front = oldest) and the rule that reconciles it with a new level total
    (src/main.rs:679-700 for bids, 712-732 for asks). */
module OrderQueue {
  import opened Exchanges

  /** `iter().sum()`: the level total the queue stands for. */
  function Sum(q: seq<int>): int
  {
    if q == [] then 0 else q[0] + Sum(q[1..])
  }

  lemma {:induction false} SumConcat(a: seq<int>, b: seq<int>)
    ensures Sum(a + b) == Sum(a) + Sum(b)
  {
    if a == [] {
      assert a + b == b;
    } else {
      assert (a + b)[1..] == a[1..] + b;
      SumConcat(a[1..], b);
    }
  }

  /** Removing the element at `p` (`VecDeque::remove`) takes exactly that element out of the total. */
  lemma SumRemove(q: seq<int>, p: nat)
    requires p < |q|
    ensures Sum(q[..p] + q[p + 1..]) == Sum(q) - q[p]
  {
    var front, back := q[..p], q[p + 1..];
    assert q == front + ([q[p]] + back);
    SumConcat(front, [q[p]] + back);
    assert Sum([q[p]] + back) == q[p] + Sum(back) by {
      assert ([q[p]] + back)[1..] == back;
    }
    SumConcat(front, back);
  }

  /** `iter().max().unwrap()`; the source panics on an empty queue. */
  function Max(q: seq<int>): int
    requires q != []
  {
    if |q| == 1 then q[0]
    else
      var rest := Max(q[1..]);
      if q[0] >= rest then q[0] else rest
  }

  /** The maximum is an element of the queue and no element exceeds it. */
  lemma {:induction false} MaxIsLargest(q: seq<int>)
    requires q != []
    ensures Max(q) in q
    ensures forall i :: 0 <= i < |q| ==> q[i] <= Max(q)
  {
    if |q| > 1 {
      MaxIsLargest(q[1..]);
      assert forall i :: 1 <= i < |q| ==> q[i] == q[1..][i - 1];
    }
  }

  /** `iter().position(|&x| x == v)`: the first index holding `v`. */
  function Position(q: seq<int>, v: int): (r: Option<nat>)
    ensures r.None? <==> v !in q
    ensures r.Some? ==> r.value < |q| && q[r.value] == v
    ensures r.Some? ==> forall j :: 0 <= j < r.value ==> q[j] != v
  {
    if q == [] then None
    else if q[0] == v then Some(0)
    else match Position(q[1..], v)
      case None => None
      case Some(i) => Some(i + 1)
  }

  /** `iter().rposition(|&x| x == v)`: the last index holding `v`. */
  function RPosition(q: seq<int>, v: int): (r: Option<nat>)
    ensures r.None? <==> v !in q
    ensures r.Some? ==> r.value < |q| && q[r.value] == v
    ensures r.Some? ==> forall j :: r.value < j < |q| ==> q[j] != v
  {
    if q == [] then None
    else if q[|q| - 1] == v then Some(|q| - 1)
    else RPosition(q[..|q| - 1], v)
  }

  /** A decrease of the level total by `change`: the newest order of exactly
      that size is removed; failing that, the first largest order is taken out
      and `largest - change` is pushed at the back. */
  function Decrease(q: seq<int>, change: int): seq<int>
    requires q != []
  {
    match RPosition(q, change)
    case Some(pos) => q[..pos] + q[pos + 1..]
    case None =>
      var largest := Max(q);
      MaxIsLargest(q);
      var pos := Position(q, largest).value;
      q[..pos] + q[pos + 1..] + [largest - change]
  }

  /** The queue after the level's total becomes `qty` (the level exists).
      An increase pushes the increase at the back; an unchanged total changes nothing. */
  function Reconcile(q: seq<int>, qty: int): seq<int>
    requires q != []
  {
    var oldSum := Sum(q);
    if oldSum > qty then Decrease(q, oldSum - qty)
    else if oldSum < qty then q + [qty - oldSum]
    else q
  }

  /** The reconciled queue always totals the new level quantity, so for a
      non-zero quantity it is never empty. */
  lemma ReconcileTotal(q: seq<int>, qty: int)
    requires q != []
    ensures Sum(Reconcile(q, qty)) == qty
    ensures qty != 0 ==> Reconcile(q, qty) != []
  {
    var oldSum := Sum(q);
    if oldSum > qty {
      ReconcileDownTotal(q, qty);
    } else if oldSum < qty {
      assert Reconcile(q, qty) == q + [qty - oldSum];
      SumConcat(q, [qty - oldSum]);
      assert Sum([qty - oldSum]) == qty - oldSum;
    }
  }

  lemma ReconcileDownTotal(q: seq<int>, qty: int)
    requires q != [] && Sum(q) > qty
    ensures Sum(Reconcile(q, qty)) == qty
  {
    DecreaseTotal(q, Sum(q) - qty);
  }

  lemma DecreaseTotal(q: seq<int>, change: int)
    requires q != []
    ensures Sum(Decrease(q, change)) == Sum(q) - change
  {
    match RPosition(q, change)
    case Some(pos) =>
      SumRemove(q, pos);
    case None =>
      MaxIsLargest(q);
      var pos := Position(q, Max(q)).value;
      SumReplace(q, pos, Max(q) - change);
  }

  /** Moving the order at `p` to the back as `v` changes the total by `v - q[p]`. */
  lemma SumReplace(q: seq<int>, p: nat, v: int)
    requires p < |q|
    ensures Sum(q[..p] + q[p + 1..] + [v]) == Sum(q) - q[p] + v
  {
    SumRemove(q, p);
    SumConcat(q[..p] + q[p + 1..], [v]);
    assert Sum([v]) == v;
  }

  /** An increase appends exactly the increase at the back and leaves every
      earlier order where it was; an unchanged total is a no-op. */
  lemma ReconcileIncrease(q: seq<int>, qty: int)
    requires q != [] && Sum(q) <= qty
    ensures Sum(q) < qty ==> Reconcile(q, qty) == q + [qty - Sum(q)]
    ensures Sum(q) == qty ==> Reconcile(q, qty) == q
    ensures Reconcile(q, qty)[..|q|] == q
    ensures multiset(Reconcile(q, qty)) == multiset(q) + (if Sum(q) < qty then multiset{qty - Sum(q)} else multiset{})
  {
    if Sum(q) < qty {
      assert (q + [qty - Sum(q)])[..|q|] == q;
    } else {
      assert q[..|q|] == q;
    }
  }

  /** A decrease that some order matches exactly removes the LAST such order
      (index `p`); the others keep their relative order. */
  lemma ReconcileExactMatch(q: seq<int>, qty: int, p: nat)
    requires p < |q| && Sum(q) > qty && q[p] == Sum(q) - qty
    requires forall j :: p < j < |q| ==> q[j] != q[p]
    ensures Reconcile(q, qty) == q[..p] + q[p + 1..]
    ensures |Reconcile(q, qty)| == |q| - 1
    ensures multiset(Reconcile(q, qty)) == multiset(q) - multiset{q[p]}
  {
    LastIndexIsRPosition(q, p);
    assert Decrease(q, q[p]) == q[..p] + q[p + 1..];
    ReconcileIsDecrease(q, qty, q[p], q[..p] + q[p + 1..]);
    MultisetRemove(q, p);
  }

  lemma LastIndexIsRPosition(q: seq<int>, p: nat)
    requires p < |q|
    requires forall j :: p < j < |q| ==> q[j] != q[p]
    ensures RPosition(q, q[p]) == Some(p)
  {
  }

  lemma FirstMaxIsPosition(q: seq<int>, p: nat)
    requires p < |q|
    requires forall j :: 0 <= j < p ==> q[j] < q[p]
    requires forall j :: 0 <= j < |q| ==> q[j] <= q[p]
    ensures Max(q) == q[p] && Position(q, q[p]) == Some(p)
  {
    MaxIsLargest(q);
  }

  /** Taking index `p` out of a sequence takes one copy of `q[p]` out of its multiset. */
  lemma MultisetRemove(q: seq<int>, p: nat)
    requires p < |q|
    ensures multiset(q[..p] + q[p + 1..]) == multiset(q) - multiset{q[p]}
  {
    assert q == q[..p] + [q[p]] + q[p + 1..];
    assert multiset(q) == multiset(q[..p]) + multiset{q[p]} + multiset(q[p + 1..]);
  }

  /** A decrease that no order matches takes the FIRST largest order (index `p`)
      out of its place and pushes `largest - change` at the back: the queue keeps
      its length and the pushed value can be zero or negative. */
  lemma ReconcileAbsorbLargest(q: seq<int>, qty: int, change: int, p: nat)
    requires p < |q| && change == Sum(q) - qty > 0
    requires change !in q
    requires forall j :: 0 <= j < |q| ==> q[j] <= q[p]
    requires forall j :: 0 <= j < p ==> q[j] < q[p]
    ensures Reconcile(q, qty) == q[..p] + q[p + 1..] + [q[p] - change]
    ensures |Reconcile(q, qty)| == |q|
    ensures multiset(Reconcile(q, qty)) == multiset(q) - multiset{q[p]} + multiset{q[p] - change}
  {
    var kept := q[..p] + q[p + 1..];
    DecreaseAbsorbLargest(q, change, p);
    ReconcileIsDecrease(q, qty, change, kept + [q[p] - change]);
    MultisetRemove(q, p);
    assert multiset(kept + [q[p] - change]) == multiset(kept) + multiset{q[p] - change};
  }

  /** A decrease of the total is the `Decrease` rule applied to the difference. */
  lemma ReconcileIsDecrease(q: seq<int>, qty: int, change: int, r: seq<int>)
    requires q != [] && change == Sum(q) - qty > 0
    requires Decrease(q, change) == r
    ensures Reconcile(q, qty) == r
  {
    var oldSum := Sum(q);
    assert oldSum > qty && oldSum - qty == change;
  }

  lemma DecreaseAbsorbLargest(q: seq<int>, change: int, p: nat)
    requires p < |q| && change !in q
    requires forall j :: 0 <= j < |q| ==> q[j] <= q[p]
    requires forall j :: 0 <= j < p ==> q[j] < q[p]
    ensures Decrease(q, change) == q[..p] + q[p + 1..] + [q[p] - change]
  {
    assert RPosition(q, change).None?;
    FirstMaxIsPosition(q, p);
    DecreaseAt(q, change, p);
  }

  /** The unmatched branch of `Decrease` once the first largest order is known to sit at `p`. */
  lemma DecreaseAt(q: seq<int>, change: int, p: nat)
    requires p < |q| && RPosition(q, change).None?
    requires Max(q) == q[p] && Position(q, q[p]) == Some(p)
    ensures Decrease(q, change) == q[..p] + q[p + 1..] + [q[p] - change]
  {
  }

  /** The decrease rule can leave a non-positive order in the queue:
      `[3, 3]` reduced to a total of 1 becomes `[3, -2]`. */
  lemma ReconcileCanGoNegative()
    ensures Reconcile([3, 3], 1) == [3, -2]
  {
    assert RPosition([3, 3], 5) == None;
    assert Position([3, 3], 3) == Some(0);
  }

  /** The largest order is moved, not reduced in place:
      `[5, 3, 1]` reduced to 7 becomes `[3, 1, 3]` (in-place reduction would give `[3, 3, 1]`). */
  lemma ReconcileMovesLargestToBack()
    ensures Reconcile([5, 3, 1], 7) == [3, 1, 3]
  {
    assert RPosition([5, 3, 1], 2) == None;
    assert Position([5, 3, 1], 5) == Some(0);
  }

  /** The three worked queues: `[5, 3]` raised to 11, `[5, 3, 3]` lowered to 8 and `[5, 3]` lowered to 6. */
  lemma ReconcileExamples()
    ensures Reconcile([5, 3], 11) == [5, 3, 3]
    ensures Reconcile([5, 3, 3], 8) == [5, 3]
    ensures Reconcile([5, 3], 6) == [3, 3]
  {
    assert RPosition([5, 3, 3], 3) == Some(2);
    assert RPosition([5, 3], 2) == None;
    assert Position([5, 3], 5) == Some(0);
  }
}
