/** The integer bookkeeping around the mini-batch k-means clustering of order
    sizes (src/kmeans.rs): which orders become points, how centroids are first
    picked, how labels are renumbered and paired back with the orders. */
module KMeans {

  /** A book side as the clustering sees it: `(price, queue)` pairs in the
      ascending price order in which a `BTreeMap` is iterated. */
  predicate Ascending(book: seq<(int, seq<int>)>)
  {
    forall i, j :: 0 <= i < j < |book| ==> book[i].0 < book[j].0
  }

  type SortedBook = book: seq<(int, seq<int>)> | Ascending(book)

  /** The positive quantities of a queue, in queue order: the orders that
      become clustering points. */
  function Positives(q: seq<int>): (r: seq<int>)
    ensures |r| <= |q|
    decreases |q|
  {
    if q == [] then []
    else
      var last := q[|q| - 1];
      Positives(q[..|q| - 1]) + (if last > 0 then [last] else [])
  }

  /** `Positives` keeps exactly the positive quantities. */
  lemma {:induction false} PositivesMembers(q: seq<int>, x: int)
    ensures x in Positives(q) <==> x in q && x > 0
    decreases |q|
  {
    if q != [] {
      assert q == q[..|q| - 1] + [q[|q| - 1]];
      PositivesMembers(q[..|q| - 1], x);
    }
  }

  /** The points of a whole side: ascending price, then queue order. */
  function Flatten(book: seq<(int, seq<int>)>): seq<int>
    decreases |book|
  {
    if book == [] then [] else Flatten(book[..|book| - 1]) + Positives(book[|book| - 1].1)
  }

  lemma {:induction false} PositivesPrefix(q: seq<int>, k: nat)
    requires k < |q|
    ensures Positives(q[..k + 1]) == Positives(q[..k]) + (if q[k] > 0 then [q[k]] else [])
    ensures |Positives(q[..k + 1])| <= |Positives(q)|
    decreases |q| - k
  {
    assert q[..k + 1][..k] == q[..k];
    if k + 1 < |q| {
      PositivesPrefix(q, k + 1);
    } else {
      assert q[..k + 1] == q;
    }
  }

  lemma {:induction false} FlattenPrefix(book: seq<(int, seq<int>)>, i: nat)
    requires i < |book|
    ensures Flatten(book[..i + 1]) == Flatten(book[..i]) + Positives(book[i].1)
    ensures |Flatten(book[..i + 1])| <= |Flatten(book)|
    decreases |book| - i
  {
    assert book[..i + 1][..i] == book[..i];
    if i + 1 < |book| {
      FlattenPrefix(book, i + 1);
    } else {
      assert book[..i + 1] == book;
    }
  }

  function Firsts(ps: seq<(int, nat)>): (r: seq<int>)
    ensures |r| == |ps|
    decreases |ps|
  {
    if ps == [] then [] else Firsts(ps[..|ps| - 1]) + [ps[|ps| - 1].0]
  }

  function Seconds(ps: seq<(int, nat)>): (r: seq<nat>)
    ensures |r| == |ps|
    decreases |ps|
  {
    if ps == [] then [] else Seconds(ps[..|ps| - 1]) + [ps[|ps| - 1].1]
  }

  /** Every label of a clustered side, in iteration order. */
  function AllLabels(out: seq<(int, seq<(int, nat)>)>): seq<nat>
    decreases |out|
  {
    if out == [] then [] else AllLabels(out[..|out| - 1]) + Seconds(out[|out| - 1].1)
  }

  lemma AllLabelsAppend(out: seq<(int, seq<(int, nat)>)>, level: (int, seq<(int, nat)>))
    ensures AllLabels(out + [level]) == AllLabels(out) + Seconds(level.1)
  {
    assert (out + [level])[..|out|] == out;
  }

  /** `out` has the prices of `book` in the same order, each paired with exactly
      that level's positive quantities, in order. */
  predicate SameShape(out: seq<(int, seq<(int, nat)>)>, book: seq<(int, seq<int>)>)
  {
    |out| == |book| && forall j :: 0 <= j < |book| ==> out[j].0 == book[j].0 && Firsts(out[j].1) == Positives(book[j].1)
  }

  lemma SameShapeAppend(out: seq<(int, seq<(int, nat)>)>, book: seq<(int, seq<int>)>, i: nat, entry: seq<(int, nat)>)
    requires i < |book| && SameShape(out, book[..i]) && Firsts(entry) == Positives(book[i].1)
    ensures SameShape(out + [(book[i].0, entry)], book[..i + 1])
  {
    var out' := out + [(book[i].0, entry)];
    forall j | 0 <= j < i + 1
      ensures out'[j].0 == book[..i + 1][j].0 && Firsts(out'[j].1) == Positives(book[..i + 1][j].1)
    {
      if j < i {
        assert out'[j] == out[j] && book[..i + 1][j] == book[..i][j];
      }
    }
  }

  /** `build_clustered_orders` (src/kmeans.rs:200-218): each price keeps its
      entry, even when it has no positive order; the positive orders are paired
      with the labels in order, one label each. The source indexes `labels`
      out of bounds unless it has a label for every positive order. */
  method BuildClusteredOrders(book: seq<(int, seq<int>)>, labels: seq<nat>) returns (out: seq<(int, seq<(int, nat)>)>)
    requires |Flatten(book)| <= |labels|
    ensures SameShape(out, book)
    ensures AllLabels(out) == labels[..|Flatten(book)|]
  {
    out := [];
    var idx := 0;
    for i := 0 to |book|
      invariant SameShape(out, book[..i])
      invariant idx == |Flatten(book[..i])| <= |Flatten(book)|
      invariant AllLabels(out) == labels[..idx]
    {
      FlattenPrefix(book, i);
      var start := idx;
      var entry;
      entry, idx := PairLevel(book[i].1, labels, start);
      AllLabelsAppend(out, (book[i].0, entry));
      SameShapeAppend(out, book, i, entry);
      out := out + [(book[i].0, entry)];
      assert labels[..idx] == labels[..start] + labels[start..idx];
    }
    assert book[..|book|] == book;
  }

  /** The inner loop of `build_clustered_orders` (src/kmeans.rs:208-214): the
      positive orders of one queue paired with the labels from `start` on. */
  method PairLevel(deq: seq<int>, labels: seq<nat>, start: nat) returns (entry: seq<(int, nat)>, idx: nat)
    requires start + |Positives(deq)| <= |labels|
    ensures idx == start + |Positives(deq)|
    ensures Firsts(entry) == Positives(deq) && Seconds(entry) == labels[start..idx]
  {
    entry := [];
    idx := start;
    for k := 0 to |deq|
      invariant idx == start + |Positives(deq[..k])| <= start + |Positives(deq)|
      invariant Firsts(entry) == Positives(deq[..k])
      invariant Seconds(entry) == labels[start..idx]
    {
      PositivesPrefix(deq, k);
      if deq[k] > 0 {
        entry := entry + [(deq[k], labels[idx])];
        idx := idx + 1;
        assert labels[start..idx] == labels[start..idx - 1] + [labels[idx - 1]];
      }
    }
    assert deq[..|deq|] == deq;
  }

  /** `label_map` (src/kmeans.rs:125-128): old label `order[n]` becomes `n`. */
  function LabelMapOf(order: seq<nat>): (m: map<nat, nat>)
    ensures forall l :: l in m <==> l in order
    decreases |order|
  {
    if order == [] then map[]
    else
      var n := |order| - 1;
      assert order == order[..n] + [order[n]];
      LabelMapOf(order[..n])[order[n] := n]
  }

  /** `*label_map.get(label).unwrap_or(&0)` (src/kmeans.rs:131). */
  function Relabel(m: map<nat, nat>, l: nat): nat
  {
    if l in m then m[l] else 0
  }

  /** `centroid_indices` is a sort of `0..k`: every index exactly once. */
  predicate IsPermutation(order: seq<nat>, k: nat)
  {
    && |order| == k
    && (forall l :: 0 <= l < k ==> l in order)
    && (forall i, j :: 0 <= i < j < k ==> order[i] != order[j])
  }

  /** With distinct entries, the map sends `order[j]` to exactly `j`. */
  lemma {:induction false} LabelMapInverts(order: seq<nat>, j: nat)
    requires j < |order|
    requires forall a, b :: 0 <= a < b < |order| ==> order[a] != order[b]
    ensures order[j] in LabelMapOf(order) && LabelMapOf(order)[order[j]] == j
    decreases |order|
  {
    var n := |order| - 1;
    var init := order[..n];
    assert LabelMapOf(order) == LabelMapOf(init)[order[n] := n];
    if j < n {
      forall a, b | 0 <= a < b < |init|
        ensures init[a] != init[b]
      {
        assert init[a] == order[a] && init[b] == order[b];
      }
      assert init[j] == order[j];
      LabelMapInverts(init, j);
      assert order[j] != order[n];
    }
  }

  /** The final remap is a bijection on `0..k`: labels in range stay in range,
      distinct clusters keep distinct labels, and every new label is used by
      exactly the old label sorted into that position. */
  lemma RemapIsBijection(order: seq<nat>, k: nat)
    requires IsPermutation(order, k)
    ensures forall l :: 0 <= l < k ==> Relabel(LabelMapOf(order), l) < k
    ensures forall j :: 0 <= j < k ==> Relabel(LabelMapOf(order), order[j]) == j
    ensures forall l1, l2 :: 0 <= l1 < k && 0 <= l2 < k && l1 != l2 ==>
      Relabel(LabelMapOf(order), l1) != Relabel(LabelMapOf(order), l2)
  {
    var m := LabelMapOf(order);
    forall j | 0 <= j < k
      ensures Relabel(m, order[j]) == j
    {
      LabelMapInverts(order, j);
    }
    forall l | 0 <= l < k
      ensures exists j :: 0 <= j < k && order[j] == l && Relabel(m, l) == j
    {
      assert l in order;
      var j :| 0 <= j < |order| && order[j] == l;
      assert Relabel(m, order[j]) == j;
    }
  }

  /** The point-collection loops of `fit` (src/kmeans.rs:62-70): every positive
      quantity, ascending price, then queue order. */
  method CollectPoints(book: seq<(int, seq<int>)>) returns (points: seq<int>)
    ensures points == Flatten(book)
  {
    points := [];
    for i := 0 to |book|
      invariant points == Flatten(book[..i])
    {
      FlattenPrefix(book, i);
      var deq := book[i].1;
      for k := 0 to |deq|
        invariant points == Flatten(book[..i]) + Positives(deq[..k])
      {
        PositivesPrefix(deq, k);
        if deq[k] > 0 {
          points := points + [deq[k]];
        }
      }
      assert deq[..|deq|] == deq;
    }
    assert book[..|book|] == book;
  }

  /** The `label_map` loop (src/kmeans.rs:125-128). */
  method BuildLabelMap(order: seq<nat>) returns (m: map<nat, nat>)
    ensures m == LabelMapOf(order)
  {
    m := map[];
    for n := 0 to |order|
      invariant m == LabelMapOf(order[..n])
    {
      assert order[..n + 1][..n] == order[..n];
      m := m[order[n] := n];
    }
    assert order[..|order|] == order;
  }

  /** `for label in labels.iter_mut()` (src/kmeans.rs:130-132): every label
      renumbered in place. */
  method RemapLabels(labels: array<nat>, m: map<nat, nat>)
    modifies labels
    ensures forall j :: 0 <= j < labels.Length ==> labels[j] == Relabel(m, old(labels[j]))
  {
    for i := 0 to labels.Length
      invariant forall j :: 0 <= j < i ==> labels[j] == Relabel(m, old(labels[j]))
      invariant forall j :: i <= j < labels.Length ==> labels[j] == old(labels[j])
    {
      labels[i] := Relabel(m, labels[i]);
    }
  }

  /** `fit` (src/kmeans.rs:58-135) without its floating-point part.
      `nearest(q)` stands for the centroid index `closest_centroid` returns for
      the point of quantity `q` once the mini-batch loop is done, and `order`
      for `centroid_indices` as sorted by centroid value. No positive order
      gives no labels; otherwise there is one label per positive order. */
  method Fit(book: SortedBook, nearest: int -> nat, order: seq<nat>) returns (labels: seq<nat>)
    ensures |labels| == |Flatten(book)|
    ensures forall i :: 0 <= i < |labels| ==> labels[i] == Relabel(LabelMapOf(order), nearest(Flatten(book)[i]))
  {
    var points := CollectPoints(book);
    if points == [] {
      return [];
    }
    var a := new nat[|points|](_ => 0);
    for i := 0 to a.Length
      invariant forall j :: 0 <= j < i ==> a[j] == nearest(points[j])
    {
      a[i] := nearest(points[i]);
    }
    var m := BuildLabelMap(order);
    RemapLabels(a, m);
    labels := a[..];
  }

  /** With a proper centroid order and nearest-centroid indices below `k`,
      every label `fit` returns is below `k`. */
  lemma FitLabelsInRange(labels: seq<nat>, points: seq<int>, nearest: int -> nat, order: seq<nat>, k: nat)
    requires IsPermutation(order, k)
    requires forall q :: nearest(q) < k
    requires |labels| == |points|
    requires forall i :: 0 <= i < |labels| ==> labels[i] == Relabel(LabelMapOf(order), nearest(points[i]))
    ensures forall i :: 0 <= i < |labels| ==> labels[i] < k
  {
    RemapIsBijection(order, k);
  }

  /** `cluster_order_book` (src/kmeans.rs:173-197): `fit`, then the same pairing
      as `build_clustered_orders`, one label for every positive order. */
  method ClusterOrderBook(book: SortedBook, nearest: int -> nat, order: seq<nat>)
    returns (out: seq<(int, seq<(int, nat)>)>)
    ensures SameShape(out, book)
    ensures |AllLabels(out)| == |Flatten(book)|
    ensures forall i :: 0 <= i < |Flatten(book)| ==>
      AllLabels(out)[i] == Relabel(LabelMapOf(order), nearest(Flatten(book)[i]))
  {
    var labels := Fit(book, nearest, order);
    out := BuildClusteredOrders(book, labels);
    assert labels[..|Flatten(book)|] == labels;
  }

  predicate Ordered(s: seq<int>)
  {
    forall i, j :: 0 <= i < j < |s| ==> s[i] <= s[j]
  }

  /** A lower bound of a sorted sequence can be put in front of it. */
  lemma OrderedCons(x: int, t: seq<int>)
    requires Ordered(t) && forall k :: 0 <= k < |t| ==> x <= t[k]
    ensures Ordered([x] + t)
  {
    var r := [x] + t;
    forall i, j | 0 <= i < j < |r|
      ensures r[i] <= r[j]
    {
      assert r[j] == t[j - 1];
      if i > 0 {
        assert r[i] == t[i - 1];
      }
    }
  }

  /** Every element of `t` is `x` or an element of `s`, so a bound of both bounds `t`. */
  lemma BoundedByMultiset(b: int, x: int, s: seq<int>, t: seq<int>)
    requires multiset(t) == multiset(s) + multiset{x}
    requires b <= x && forall k :: 0 <= k < |s| ==> b <= s[k]
    ensures forall k :: 0 <= k < |t| ==> b <= t[k]
  {
    forall k | 0 <= k < |t|
      ensures b <= t[k]
    {
      assert t[k] in multiset(t);
      if t[k] != x {
        assert t[k] in multiset(s);
        assert t[k] in s;
      }
    }
  }

  function Insert(x: int, s: seq<int>): (r: seq<int>)
    requires Ordered(s)
    ensures Ordered(r) && multiset(r) == multiset(s) + multiset{x}
    ensures |r| == |s| + 1
    decreases |s|
  {
    if s == [] then [x]
    else if x <= s[0] then
      OrderedCons(x, s);
      [x] + s
    else
      var tail := s[1..];
      assert s == [s[0]] + tail;
      var t := Insert(x, tail);
      BoundedByMultiset(s[0], x, tail, t);
      OrderedCons(s[0], t);
      [s[0]] + t
  }

  /** The ascending sort of the points in `initialize_centroids` (src/kmeans.rs:154-155). */
  function SortAscending(s: seq<int>): (r: seq<int>)
    ensures Ordered(r) && multiset(r) == multiset(s) && |r| == |s|
    decreases |s|
  {
    if s == [] then []
    else
      assert s == [s[0]] + s[1..];
      Insert(s[0], SortAscending(s[1..]))
  }

  /** `step` in `initialize_centroids` (src/kmeans.rs:157). */
  function Step(len: nat, k: nat): nat
    requires len > 0
  {
    var denom := if k <= 1 then 1 else k - 1;
    (len - 1) / denom
  }

  /** `(i * step).min(sorted.len() - 1)` (src/kmeans.rs:159). */
  function CentroidIndex(i: nat, len: nat, k: nat): (idx: nat)
    requires len > 0
    ensures idx < len
  {
    var raw := i * Step(len, k);
    if raw < len - 1 then raw else len - 1
  }

  /** `initialize_centroids` (src/kmeans.rs:150-168): exactly `k` centroids, the
      sorted points at the indices `CentroidIndex(i)`, in ascending order. The
      source calls it only with points (`fit` returns early otherwise); on an
      empty input its `len() - 1` would underflow. */
  method InitializeCentroids(points: seq<int>, k: nat) returns (centroids: seq<int>)
    requires points != []
    ensures |centroids| == k
    ensures forall i :: 0 <= i < k ==> centroids[i] == SortAscending(points)[CentroidIndex(i, |points|, k)]
    ensures forall c :: c in centroids ==> c in points
    ensures Ordered(centroids)
  {
    var sorted := SortAscending(points);
    centroids := PickCentroids(sorted, k);
    PickedCentroids(points, sorted, k, centroids);
  }

  /** The selection loop of `initialize_centroids` (src/kmeans.rs:157-161). */
  method PickCentroids(sorted: seq<int>, k: nat) returns (centroids: seq<int>)
    requires sorted != []
    ensures |centroids| == k
    ensures forall i :: 0 <= i < k ==> centroids[i] == sorted[CentroidIndex(i, |sorted|, k)]
  {
    var step := Step(|sorted|, k);
    centroids := [];
    for i := 0 to k
      invariant |centroids| == i
      invariant forall j :: 0 <= j < i ==> centroids[j] == sorted[CentroidIndex(j, |sorted|, k)]
    {
      MulMono(0, i, step);
      var idx := if i * step < |sorted| - 1 then i * step else |sorted| - 1;
      assert idx == CentroidIndex(i, |sorted|, k);
      centroids := centroids + [sorted[idx]];
    }
  }

  /** Centroids picked from the sorted points at the centroid indices are points
      and come out ascending. */
  lemma PickedCentroids(points: seq<int>, sorted: seq<int>, k: nat, centroids: seq<int>)
    requires points != [] && Ordered(sorted) && multiset(sorted) == multiset(points) && |sorted| == |points|
    requires |centroids| == k
    requires forall i :: 0 <= i < k ==> centroids[i] == sorted[CentroidIndex(i, |points|, k)]
    ensures forall c :: c in centroids ==> c in points
    ensures Ordered(centroids)
  {
    forall c | c in centroids
      ensures c in points
    {
      var j :| 0 <= j < k && centroids[j] == c;
      assert c in multiset(sorted);
    }
    forall i, j | 0 <= i < j < k
      ensures centroids[i] <= centroids[j]
    {
      CentroidIndexMonotone(i, j, |points|, k);
    }
  }

  lemma MulMono(a: nat, b: nat, c: nat)
    requires a <= b
    ensures a * c <= b * c
  {
  }

  /** The centroid indices never decrease, so the centroids come out ascending. */
  lemma CentroidIndexMonotone(i: nat, j: nat, len: nat, k: nat)
    requires i <= j && len > 0
    ensures CentroidIndex(i, len, k) <= CentroidIndex(j, len, k)
  {
    MulMono(i, j, Step(len, k));
  }

  /** For `i < k` the clamp to `len - 1` never takes effect: `i * step` is
      already a valid index. The first centroid is the smallest point. */
  lemma CentroidIndexUnclamped(i: nat, len: nat, k: nat)
    requires i < k && len > 0
    ensures CentroidIndex(i, len, k) == i * Step(len, k)
    ensures CentroidIndex(0, len, k) == 0
  {
    var step := Step(len, k);
    if k >= 2 {
      MulMono(i, k - 1, step);
      assert step * (k - 1) <= len - 1;
    }
  }

  /** With fewer points than clusters (and at least two clusters) `step` is 0,
      so every centroid is the smallest point. */
  lemma FewPointsCollapse(i: nat, len: nat, k: nat)
    requires 0 < len < k && k >= 2
    ensures CentroidIndex(i, len, k) == 0
  {
    assert Step(len, k) == 0;
  }

  /** With at least as many points as clusters the indices are strictly increasing,
      so distinct positions of the sorted points are picked. */
  lemma EnoughPointsSpread(i: nat, j: nat, len: nat, k: nat)
    requires i < j < k && k <= len && k >= 2
    ensures CentroidIndex(i, len, k) < CentroidIndex(j, len, k)
  {
    var step := Step(len, k);
    assert step >= 1;
    CentroidIndexUnclamped(i, len, k);
    CentroidIndexUnclamped(j, len, k);
    MulMono(i + 1, j, step);
  }
}
