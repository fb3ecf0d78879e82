/** Dependency multigraphs and their orders: what it means for an order to be
    topological, for it to be the least one, and for a graph to have a cycle,
    with the facts that make greedy selection find the least order or a cycle. */
module DependencyGraph {

  /** `to` depends on `from`. A graph is a sequence of arcs over `0..n`, in
      which an arc may occur more than once. */
  datatype Arc = Arc(from: nat, to: nat)

  predicate Within(arcs: seq<Arc>, n: nat) {
    forall a :: a in arcs ==> a.from < n && a.to < n
  }

  predicate Distinct(p: seq<nat>) {
    forall i, j :: 0 <= i < j < |p| ==> p[i] != p[j]
  }

  predicate Bounded(p: seq<nat>, n: nat) {
    forall i :: 0 <= i < |p| ==> p[i] < n
  }

  /** `p` lists every node once. */
  predicate IsOrder(p: seq<nat>, n: nat) {
    |p| == n && Distinct(p) && Bounded(p, n)
  }

  /** Every node comes after what it depends on. */
  predicate Topological(p: seq<nat>, n: nat, arcs: seq<Arc>) {
    && IsOrder(p, n)
    && forall x, y :: 0 <= x < |p| && 0 <= y < |p| && Arc(p[x], p[y]) in arcs ==> x < y
  }

  /** `p` comes no later than `q` in lexicographic order. */
  ghost predicate LexLeq(p: seq<nat>, q: seq<nat>)
    requires |p| == |q|
  {
    p == q || exists k :: 0 <= k < |p| && p[..k] == q[..k] && p[k] < q[k]
  }

  ghost predicate LeastTopological(p: seq<nat>, n: nat, arcs: seq<Arc>) {
    && Topological(p, n, arcs)
    && forall q :: Topological(q, n, arcs) ==> LexLeq(p, q)
  }

  /** A walk along dependencies that ends where it began. */
  predicate IsCycle(c: seq<nat>, arcs: seq<Arc>) {
    && |c| >= 2 && c[0] == c[|c| - 1]
    && forall k :: 0 <= k < |c| - 1 ==> Arc(c[k], c[k + 1]) in arcs
  }

  ghost predicate Cyclic(arcs: seq<Arc>) {
    exists c :: IsCycle(c, arcs)
  }

  // ----- greedy selection -----

  predicate Ready(done: seq<nat>, j: nat, n: nat, arcs: seq<Arc>) {
    j < n && j !in done && forall a :: a in arcs && a.to == j ==> a.from in done
  }

  /** Each node was the least one ready when it was chosen. */
  ghost predicate Greedy(p: seq<nat>, n: nat, arcs: seq<Arc>) {
    forall k :: 0 <= k < |p| ==> Ready(p[..k], p[k], n, arcs) && forall j :: Ready(p[..k], j, n, arcs) ==> p[k] <= j
  }

  ghost predicate Stuck(p: seq<nat>, n: nat, arcs: seq<Arc>) {
    forall j :: !Ready(p, j, n, arcs)
  }

  lemma GreedyIsDistinct(p: seq<nat>, n: nat, arcs: seq<Arc>)
    requires Greedy(p, n, arcs)
    ensures Distinct(p) && Bounded(p, n)
  {
    forall i, j | 0 <= i < j < |p| ensures p[i] != p[j] {
      assert Ready(p[..j], p[j], n, arcs);
      assert p[..j][i] == p[i];
    }
    forall i | 0 <= i < |p| ensures p[i] < n {
      assert Ready(p[..i], p[i], n, arcs);
    }
  }

  lemma GreedyIsTopological(p: seq<nat>, n: nat, arcs: seq<Arc>)
    requires Greedy(p, n, arcs) && |p| == n
    ensures Topological(p, n, arcs)
  {
    GreedyIsDistinct(p, n, arcs);
    forall x, y | 0 <= x < |p| && 0 <= y < |p| && Arc(p[x], p[y]) in arcs ensures x < y {
      assert Ready(p[..y], p[y], n, arcs);
      assert Arc(p[x], p[y]).from in p[..y];
      var z :| 0 <= z < y && p[z] == p[x];
      assert z == x;
    }
  }

  lemma GreedyIsLeast(p: seq<nat>, q: seq<nat>, n: nat, arcs: seq<Arc>)
    requires Greedy(p, n, arcs) && |p| == n && Topological(q, n, arcs) && Within(arcs, n)
    ensures LexLeq(p, q)
  {
    if p != q {
      var k := FirstDifference(p, q);
      assert Ready(q[..k], q[k], n, arcs) by {
        forall a | a in arcs && a.to == q[k] ensures a.from in q[..k] {
          OrderHasAll(q, n, a.from);
          var x :| 0 <= x < |q| && q[x] == a.from;
          assert Arc(q[x], q[k]) == a;
          assert q[..k][x] == a.from;
        }
      }
    }
  }

  lemma {:induction false} FirstDifference(p: seq<nat>, q: seq<nat>) returns (k: nat)
    requires |p| == |q| && p != q
    ensures k < |p| && p[..k] == q[..k] && p[k] != q[k]
  {
    if p[0] != q[0] {
      k := 0;
    } else {
      assert p == [p[0]] + p[1..] && q == [q[0]] + q[1..];
      k := FirstDifference(p[1..], q[1..]);
      assert p[..k + 1] == [p[0]] + p[1..][..k] && q[..k + 1] == [q[0]] + q[1..][..k];
      k := k + 1;
    }
  }

  lemma AgreeBelow(p: seq<nat>, q: seq<nat>, k: nat, i: nat)
    requires i < k <= |p| && k <= |q| && p[..k] == q[..k]
    ensures p[i] == q[i]
  {
    assert p[..k][i] == q[..k][i];
  }

  // ----- counting -----

  function Below(n: nat): (s: set<nat>)
    ensures forall i: nat :: i in s <==> i < n
  {
    if n == 0 then {} else Below(n - 1) + {n - 1}
  }

  lemma {:induction false} BelowSize(n: nat)
    ensures |Below(n)| == n
  {
    if n > 0 {
      BelowSize(n - 1);
    }
  }

  function Elems(p: seq<nat>): set<nat> {
    set x | x in p
  }

  lemma {:induction false} ElemsSize(p: seq<nat>)
    requires Distinct(p)
    ensures |Elems(p)| == |p|
  {
    if p != [] {
      var n := |p| - 1;
      ElemsSize(p[..n]);
      assert Elems(p) == Elems(p[..n]) + {p[n]} by { assert p == p[..n] + [p[n]]; }
      assert p[n] !in p[..n];
    }
  }

  lemma SubsetOfSameSize(a: set<nat>, b: set<nat>)
    requires a <= b && |a| >= |b|
    ensures a == b
  {
    if x :| x in b && x !in a {
      assert a <= b - {x};
      SubsetSize(a, b - {x});
    }
  }

  lemma {:induction false} SubsetSize(a: set<nat>, b: set<nat>)
    requires a <= b
    ensures |a| <= |b|
  {
    if a != {} {
      var x :| x in a;
      SubsetSize(a - {x}, b - {x});
    }
  }

  lemma OrderHasAll(p: seq<nat>, n: nat, i: nat)
    requires IsOrder(p, n) && i < n
    ensures i in p
  {
    ElemsSize(p);
    BelowSize(n);
    SubsetOfSameSize(Elems(p), Below(n));
    assert i in Below(n);
  }

  /** A sequence longer than its range repeats itself. */
  lemma Pigeonhole(w: seq<nat>, n: nat) returns (i: nat, j: nat)
    requires Bounded(w, n) && |w| > n
    ensures i < j < |w| && w[i] == w[j]
  {
    if Distinct(w) {
      ElemsSize(w);
      BelowSize(n);
      SubsetSize(Elems(w), Below(n));
      assert false;
    }
    i, j :| 0 <= i < j < |w| && w[i] == w[j];
  }

  // ----- cycles -----

  /** Along a topological order positions grow, so no walk can close. */
  lemma {:induction false} WalkClimbs(p: seq<nat>, n: nat, arcs: seq<Arc>, c: seq<nat>, x: nat, y: nat)
    requires Topological(p, n, arcs) && Within(arcs, n)
    requires |c| >= 2 && forall k :: 0 <= k < |c| - 1 ==> Arc(c[k], c[k + 1]) in arcs
    requires x < n && y < n && p[x] == c[0] && p[y] == c[|c| - 1]
    ensures x < y
  {
    if |c| > 2 {
      var d := c[..|c| - 1];
      assert Arc(c[|c| - 2], c[|c| - 2 + 1]) in arcs;
      OrderHasAll(p, n, c[|c| - 2]);
      var z :| 0 <= z < |p| && p[z] == c[|c| - 2];
      WalkClimbs(p, n, arcs, d, x, z);
      assert Arc(p[z], p[y]) in arcs;
    } else {
      assert Arc(c[0], c[0 + 1]) in arcs;
    }
  }

  lemma CyclicHasNoOrder(p: seq<nat>, n: nat, arcs: seq<Arc>)
    requires Topological(p, n, arcs) && Within(arcs, n)
    ensures !Cyclic(arcs)
  {
    if c :| IsCycle(c, arcs) {
      assert Arc(c[0], c[0 + 1]) in arcs;
      OrderHasAll(p, n, c[0]);
      var x :| 0 <= x < |p| && p[x] == c[0];
      WalkClimbs(p, n, arcs, c, x, x);
    }
  }

  /** `w` walks from each node to one it depends on, avoiding `done`. */
  predicate Descends(w: seq<nat>, done: seq<nat>, n: nat, arcs: seq<Arc>) {
    && (forall k :: 0 <= k < |w| ==> w[k] < n && w[k] !in done)
    && (forall k :: 0 <= k < |w| - 1 ==> Arc(w[k + 1], w[k]) in arcs)
  }

  lemma {:induction false} StuckDescends(p: seq<nat>, n: nat, arcs: seq<Arc>, from: nat, len: nat) returns (w: seq<nat>)
    requires Stuck(p, n, arcs) && Within(arcs, n) && from < n && from !in p && len >= 1
    ensures |w| == len && Descends(w, p, n, arcs)
    decreases len
  {
    if len == 1 {
      w := [from];
    } else {
      var v := StuckDescends(p, n, arcs, from, len - 1);
      assert !Ready(p, v[|v| - 1], n, arcs);
      var a :| a in arcs && a.to == v[|v| - 1] && a.from !in p;
      w := v + [a.from];
      forall k | 0 <= k < |w| - 1 ensures Arc(w[k + 1], w[k]) in arcs {
        if k < |v| - 1 {
          assert Arc(v[k + 1], v[k]) in arcs;
        } else {
          assert Arc(w[k + 1], w[k]) == a;
        }
      }
    }
  }

  /** If nodes remain and none is ready, the graph has a cycle. */
  lemma StuckIsCyclic(p: seq<nat>, n: nat, arcs: seq<Arc>)
    requires Greedy(p, n, arcs) && Stuck(p, n, arcs) && Within(arcs, n) && |p| < n
    ensures Cyclic(arcs)
  {
    var from := MissingNode(p, n, arcs);
    var w := StuckDescends(p, n, arcs, from, n + 1);
    var i, j := Pigeonhole(w, n);
    var c := Reverse(w[i..j + 1]);
    assert IsCycle(c, arcs) by {
      forall k | 0 <= k < |c| - 1 ensures Arc(c[k], c[k + 1]) in arcs {
        var x := j - k - 1;
        assert c[k] == w[x + 1] && c[k + 1] == w[x];
        assert Arc(w[x + 1], w[x]) in arcs;
      }
    }
  }

  function Reverse(w: seq<nat>): (r: seq<nat>)
    ensures |r| == |w| && forall k :: 0 <= k < |w| ==> r[k] == w[|w| - 1 - k]
  {
    seq(|w|, k requires 0 <= k < |w| => w[|w| - 1 - k])
  }

  lemma MissingNode(p: seq<nat>, n: nat, arcs: seq<Arc>) returns (i: nat)
    requires Greedy(p, n, arcs) && |p| < n
    ensures i < n && i !in p
  {
    GreedyIsDistinct(p, n, arcs);
    ElemsSize(p);
    BelowSize(n);
    if Below(n) <= Elems(p) {
      SubsetSize(Below(n), Elems(p));
      assert false;
    }
    i :| i in Below(n) && i !in Elems(p);
  }

  /** A complete greedy order is the least topological one and rules out a
      cycle; an incomplete one that is stuck proves a cycle. */
  lemma GreedyDecides(p: seq<nat>, n: nat, arcs: seq<Arc>)
    requires Greedy(p, n, arcs) && Stuck(p, n, arcs) && Within(arcs, n)
    ensures |p| <= n
    ensures |p| == n <==> !Cyclic(arcs)
    ensures |p| == n ==> LeastTopological(p, n, arcs)
  {
    GreedyIsDistinct(p, n, arcs);
    ElemsSize(p);
    BelowSize(n);
    SubsetSize(Elems(p), Below(n));
    if |p| == n {
      GreedyIsTopological(p, n, arcs);
      CyclicHasNoOrder(p, n, arcs);
      forall q | Topological(q, n, arcs) ensures LexLeq(p, q) {
        GreedyIsLeast(p, q, n, arcs);
      }
    } else {
      StuckIsCyclic(p, n, arcs);
    }
  }

  /** There is only one least order. */
  lemma {:induction false} LeastIsUnique(p: seq<nat>, q: seq<nat>, n: nat, arcs: seq<Arc>)
    requires LeastTopological(p, n, arcs) && LeastTopological(q, n, arcs)
    ensures p == q
  {
    if p != q {
      var k :| 0 <= k < |p| && p[..k] == q[..k] && p[k] < q[k];
      var l :| 0 <= l < |q| && q[..l] == p[..l] && q[l] < p[l];
      forall i | 0 <= i < k ensures p[i] == q[i] { AgreeBelow(p, q, k, i); }
      forall i | 0 <= i < l ensures p[i] == q[i] { AgreeBelow(p, q, l, i); }
    }
  }

  function Identity(n: nat): (p: seq<nat>)
    ensures |p| == n && forall i :: 0 <= i < n ==> p[i] == i
  {
    seq(n, i requires 0 <= i < n => i)
  }

  /** If the source order is topological, it is the least order. */
  lemma IdentityIsLeast(n: nat, arcs: seq<Arc>)
    requires Topological(Identity(n), n, arcs)
    ensures LeastTopological(Identity(n), n, arcs)
  {
    var p := Identity(n);
    forall q | Topological(q, n, arcs) ensures LexLeq(p, q) {
      if p != q {
        var k := FirstDifference(p, q);
        forall i: nat | i < k ensures i in q[..k] {
          AgreeBelow(p, q, k, i);
          assert q[..k][i] == i;
        }
        assert q[k] !in q[..k];
      }
    }
  }
}
