/** Sorting configuration blocks by dependency: Kahn's algorithm over in-degree
    counts with repeated arcs, choosing the ready block that comes first in the
    source. Blocks with no dependency id are appended at the end. */
module BlockSorter {
  import opened DependencyGraph

  /** A block together with what its handler reports about it. `handled` is
      false when no handler is registered for the block's type. */
  datatype Block = Block(handled: bool, id: string, idError: bool, deps: seq<string>, depsError: bool, name: string)

  datatype Result = Sorted(blocks: seq<Block>) | IdErrors | DepErrors | CircularDependency

  datatype Lookup = Unknown | Found(index: nat)

  // ----- specification -----

  predicate Participates(b: Block) {
    b.handled && b.id != ""
  }

  /** The participating blocks, in source order. */
  function Entries(blocks: seq<Block>): seq<Block> {
    if blocks == [] then []
    else
      var last := blocks[|blocks| - 1];
      Entries(blocks[..|blocks| - 1]) + (if Participates(last) then [last] else [])
  }

  function Others(blocks: seq<Block>): seq<Block> {
    if blocks == [] then []
    else
      var last := blocks[|blocks| - 1];
      Others(blocks[..|blocks| - 1]) + (if Participates(last) then [] else [last])
  }

  /** The entry a reference resolves to: the last one carrying the id. */
  function Resolve(es: seq<Block>, id: string): (r: Lookup)
    ensures r.Found? ==> r.index < |es| && es[r.index].id == id
    ensures r.Unknown? ==> forall i :: 0 <= i < |es| ==> es[i].id != id
    ensures r.Found? ==> forall i :: r.index < i < |es| ==> es[i].id != id
  {
    if es == [] then Unknown
    else if es[|es| - 1].id == id then Found(|es| - 1)
    else Resolve(es[..|es| - 1], id)
  }

  /** The arcs into entry `j` from the references `deps`; unknown ones add none. */
  function ArcsInto(es: seq<Block>, j: nat, deps: seq<string>): seq<Arc> {
    if deps == [] then []
    else
      var r := Resolve(es, deps[|deps| - 1]);
      ArcsInto(es, j, deps[..|deps| - 1]) + (if r.Found? then [Arc(r.index, j)] else [])
  }

  /** The arcs into the first `n` entries. */
  function ArcsUpTo(es: seq<Block>, n: nat): seq<Arc>
    requires n <= |es|
  {
    if n == 0 then [] else ArcsUpTo(es, n - 1) + ArcsInto(es, n - 1, es[n - 1].deps)
  }

  function Arcs(es: seq<Block>): seq<Arc> {
    ArcsUpTo(es, |es|)
  }

  function Place(es: seq<Block>, p: seq<nat>): (r: seq<Block>)
    requires Bounded(p, |es|)
    ensures |r| == |p| && forall i :: 0 <= i < |p| ==> r[i] == es[p[i]]
  {
    seq(|p|, i requires 0 <= i < |p| => es[p[i]])
  }

  /** `out` is the participating blocks in the least topological order, then
      the others in source order. */
  ghost predicate IsLeastOrder(blocks: seq<Block>, out: seq<Block>) {
    var es := Entries(blocks);
    exists p :: LeastTopological(p, |es|, Arcs(es)) && out == Place(es, p) + Others(blocks)
  }

  predicate HasIdError(blocks: seq<Block>) {
    exists i :: 0 <= i < |blocks| && blocks[i].handled && blocks[i].idError
  }

  predicate HasDepError(es: seq<Block>) {
    exists i :: 0 <= i < |es| && es[i].depsError
  }

  lemma {:induction false} ArcsIntoWithin(es: seq<Block>, j: nat, deps: seq<string>)
    requires j < |es|
    ensures Within(ArcsInto(es, j, deps), |es|)
  {
    if deps != [] {
      ArcsIntoWithin(es, j, deps[..|deps| - 1]);
    }
  }

  lemma {:induction false} ArcsUpToWithin(es: seq<Block>, n: nat)
    requires n <= |es|
    ensures Within(ArcsUpTo(es, n), |es|)
  {
    if n > 0 {
      ArcsUpToWithin(es, n - 1);
      ArcsIntoWithin(es, n - 1, es[n - 1].deps);
    }
  }

  // ----- in-degrees -----

  /** The number of arcs into `j` from nodes not in `done`. */
  function Blocked(arcs: seq<Arc>, j: nat, done: set<nat>): nat {
    if arcs == [] then 0
    else
      var a := arcs[|arcs| - 1];
      Blocked(arcs[..|arcs| - 1], j, done) + (if a.to == j && a.from !in done then 1 else 0)
  }

  /** The number of arcs from `i` to `j`. */
  function Multiplicity(arcs: seq<Arc>, i: nat, j: nat): nat {
    if arcs == [] then 0
    else Multiplicity(arcs[..|arcs| - 1], i, j) + (if arcs[|arcs| - 1] == Arc(i, j) then 1 else 0)
  }

  lemma {:induction false} BlockedDrops(arcs: seq<Arc>, j: nat, done: set<nat>, i: nat)
    requires i !in done
    ensures Blocked(arcs, j, done + {i}) == Blocked(arcs, j, done) - Multiplicity(arcs, i, j)
  {
    if arcs != [] {
      BlockedDrops(arcs[..|arcs| - 1], j, done, i);
    }
  }

  lemma {:induction false} BlockedZero(arcs: seq<Arc>, j: nat, done: set<nat>)
    ensures Blocked(arcs, j, done) == 0 <==> forall a :: a in arcs && a.to == j ==> a.from in done
  {
    if arcs != [] {
      BlockedZero(arcs[..|arcs| - 1], j, done);
      assert arcs == arcs[..|arcs| - 1] + [arcs[|arcs| - 1]];
    }
  }

  lemma BlockedExtends(arcs: seq<Arc>, a: Arc, i: nat, j: nat)
    ensures Blocked(arcs + [a], j, {}) == Blocked(arcs, j, {}) + (if a.to == j then 1 else 0)
    ensures Multiplicity(arcs + [a], i, j) == Multiplicity(arcs, i, j) + (if a == Arc(i, j) then 1 else 0)
  {
    assert (arcs + [a])[..|arcs|] == arcs;
  }

  /** The in-degree counters and adjacency lists describe `arcs`. */
  ghost predicate Describes(inDegree: array<int>, dependents: array<seq<nat>>, arcs: seq<Arc>, n: nat)
    reads inDegree, dependents
  {
    && inDegree.Length == dependents.Length == n
    && (forall j: nat :: j < n ==> inDegree[j] == Blocked(arcs, j, {}))
    && (forall i: nat, j: nat :: i < n ==> multiset(dependents[i])[j] == Multiplicity(arcs, i, j))
  }

  // ----- the sorter -----

  method SortBlocksByDependencies(blocks: seq<Block>) returns (r: Result)
    ensures r.IdErrors? <==> HasIdError(blocks)
    ensures r.DepErrors? <==> !HasIdError(blocks) && HasDepError(Entries(blocks))
    ensures r.CircularDependency? <==>
            !HasIdError(blocks) && !HasDepError(Entries(blocks)) && Cyclic(Arcs(Entries(blocks)))
    ensures r.Sorted? ==> IsLeastOrder(blocks, r.blocks)
  {
    var es, src, others, idToIdx, idErrors := Collect(blocks);
    if idErrors {
      return IdErrors;
    }
    var n := |es|;
    var inDegree := new int[n](_ => 0);
    var dependents := new seq<nat>[n](_ => []);
    var depErrors := Connect(es, idToIdx, inDegree, dependents);
    if depErrors {
      return DepErrors;
    }
    ArcsUpToWithin(es, n);
    var order := Kahn(n, src, inDegree, dependents, Arcs(es));
    GreedyDecides(order, n, Arcs(es));
    GreedyIsDistinct(order, n, Arcs(es));
    if |order| != n {
      return CircularDependency;
    }
    r := Sorted(Place(es, order) + others);
  }

  /** The index finds what references resolve to. */
  ghost predicate Indexes(index: map<string, nat>, es: seq<Block>) {
    forall id :: Resolve(es, id) == if id in index then Found(index[id]) else Unknown
  }

  lemma {:induction false} IndexExtends(index: map<string, nat>, es: seq<Block>, b: Block)
    requires Indexes(index, es)
    ensures Indexes(index[b.id := |es|], es + [b])
  {
    assert (es + [b])[..|es|] == es;
  }

  method Collect(blocks: seq<Block>)
    returns (es: seq<Block>, src: seq<nat>, others: seq<Block>, idToIdx: map<string, nat>, errors: bool)
    ensures es == Entries(blocks) && others == Others(blocks)
    ensures |src| == |es| && forall i, j :: 0 <= i < j < |src| ==> src[i] < src[j]
    ensures Indexes(idToIdx, es)
    ensures errors == HasIdError(blocks)
  {
    es, src, others, idToIdx, errors := [], [], [], map[], false;
    for i := 0 to |blocks|
      invariant es == Entries(blocks[..i]) && others == Others(blocks[..i])
      invariant |src| == |es|
      invariant forall k :: 0 <= k < |src| ==> src[k] < i
      invariant forall k, l :: 0 <= k < l < |src| ==> src[k] < src[l]
      invariant Indexes(idToIdx, es)
      invariant errors == exists k :: 0 <= k < i && blocks[k].handled && blocks[k].idError
    {
      var b := blocks[i];
      assert blocks[..i + 1][..i] == blocks[..i];
      if !b.handled {
        others := others + [b];
      } else {
        errors := errors || b.idError;
        if b.id == "" {
          others := others + [b];
        } else {
          IndexExtends(idToIdx, es, b);
          idToIdx := idToIdx[b.id := |es|];
          es := es + [b];
          src := src + [i];
        }
      }
    }
    assert blocks[..|blocks|] == blocks;
  }

  method Connect(es: seq<Block>, idToIdx: map<string, nat>, inDegree: array<int>, dependents: array<seq<nat>>)
    returns (errors: bool)
    requires inDegree.Length == dependents.Length == |es|
    requires forall j :: 0 <= j < |es| ==> inDegree[j] == 0 && dependents[j] == []
    requires Indexes(idToIdx, es)
    modifies inDegree, dependents
    ensures errors == HasDepError(es)
    ensures Describes(inDegree, dependents, Arcs(es), |es|)
  {
    errors := false;
    for e := 0 to |es|
      invariant errors == exists k :: 0 <= k < e && es[k].depsError
      invariant Describes(inDegree, dependents, ArcsUpTo(es, e), |es|)
    {
      errors := errors || es[e].depsError;
      ConnectEntry(es, e, idToIdx, inDegree, dependents);
    }
  }

  method ConnectEntry(
    es: seq<Block>, e: nat, idToIdx: map<string, nat>, inDegree: array<int>, dependents: array<seq<nat>>)
    requires e < |es|
    requires Describes(inDegree, dependents, ArcsUpTo(es, e), |es|)
    requires Indexes(idToIdx, es)
    modifies inDegree, dependents
    ensures Describes(inDegree, dependents, ArcsUpTo(es, e + 1), |es|)
  {
    ghost var base := ArcsUpTo(es, e);
    ghost var arcs := base;
    var deps := es[e].deps;
    for k := 0 to |deps|
      invariant arcs == base + ArcsInto(es, e, deps[..k])
      invariant Describes(inDegree, dependents, arcs, |es|)
    {
      assert deps[..k + 1][..k] == deps[..k];
      assert Resolve(es, deps[k]) == if deps[k] in idToIdx then Found(idToIdx[deps[k]]) else Unknown;
      if deps[k] in idToIdx {
        var d := idToIdx[deps[k]];
        AddArc(inDegree, dependents, arcs, Arc(d, e), |es|);
        arcs := arcs + [Arc(d, e)];
      }
    }
    assert deps[..|deps|] == deps;
  }

  method AddArc(inDegree: array<int>, dependents: array<seq<nat>>, ghost arcs: seq<Arc>, a: Arc, n: nat)
    requires Describes(inDegree, dependents, arcs, n) && a.from < n && a.to < n
    modifies inDegree, dependents
    ensures Describes(inDegree, dependents, arcs + [a], n)
  {
    dependents[a.from] := dependents[a.from] + [a.to];
    inDegree[a.to] := inDegree[a.to] + 1;
    forall j: nat | j < n ensures inDegree[j] == Blocked(arcs + [a], j, {}) {
      BlockedExtends(arcs, a, 0, j);
    }
    forall i: nat, j: nat | i < n ensures multiset(dependents[i])[j] == Multiplicity(arcs + [a], i, j) {
      BlockedExtends(arcs, a, i, j);
    }
  }

  // ----- Kahn's loop -----

  predicate Ascending(s: seq<nat>) {
    forall i, j :: 0 <= i < j < |s| ==> s[i] < s[j]
  }

  /** The library sort: orders entry indices by source position. */
  method SortBySource(s: seq<nat>, src: seq<nat>) returns (r: seq<nat>)
    requires Distinct(s) && Bounded(s, |src|)
    requires forall i, j :: 0 <= i < j < |src| ==> src[i] < src[j]
    ensures Ascending(r) && forall x :: x in r <==> x in s
  {
    r := [];
    for i := 0 to |s|
      invariant Ascending(r) && Bounded(r, |src|) && forall x :: x in r <==> x in s[..i]
    {
      var k := 0;
      while k < |r| && src[r[k]] < src[s[i]]
        invariant k <= |r| && Ascending(r) && Bounded(r, |src|)
        invariant forall j :: 0 <= j < k ==> r[j] < s[i]
      {
        assert r[k] < s[i];
        k := k + 1;
      }
      assert k < |r| ==> r[k] in s[..i] && s[i] < r[k];
      r := r[..k] + [s[i]] + r[k..];
      assert s[..i + 1] == s[..i] + [s[i]];
    }
    assert s[..|s|] == s;
  }

  /** `available` lists, in order, the nodes ready once `order` is done. */
  ghost predicate IsReadyList(available: seq<nat>, order: seq<nat>, n: nat, arcs: seq<Arc>) {
    && Ascending(available)
    && forall j: nat :: j in available <==> j < n && j !in order && Blocked(arcs, j, Elems(order)) == 0
  }

  lemma ReadyMeansUnblocked(order: seq<nat>, j: nat, n: nat, arcs: seq<Arc>)
    ensures Ready(order, j, n, arcs) <==> j < n && j !in order && Blocked(arcs, j, Elems(order)) == 0
  {
    BlockedZero(arcs, j, Elems(order));
  }

  method Kahn(n: nat, src: seq<nat>, inDegree: array<int>, dependents: array<seq<nat>>, ghost arcs: seq<Arc>)
    returns (order: seq<nat>)
    requires |src| == n && forall i, j :: 0 <= i < j < |src| ==> src[i] < src[j]
    requires Describes(inDegree, dependents, arcs, n) && Within(arcs, n)
    modifies inDegree
    ensures Greedy(order, n, arcs) && Stuck(order, n, arcs)
  {
    order := [];
    var available := InitiallyAvailable(n, src, inDegree, arcs);
    assert Elems(order) == {};
    while available != []
      invariant inDegree.Length == dependents.Length == n
      invariant forall j: nat :: j < n ==> inDegree[j] == Blocked(arcs, j, Elems(order))
      invariant forall i: nat, j: nat :: i < n ==> multiset(dependents[i])[j] == Multiplicity(arcs, i, j)
      invariant Greedy(order, n, arcs) && |order| <= n
      invariant IsReadyList(available, order, n, arcs)
      invariant forall j :: j in order ==> Blocked(arcs, j, Elems(order)) == 0
      decreases n - |order|
    {
      var idx := available[0];
      assert idx in available;
      GreedyExtends(order, idx, n, arcs, available);
      ghost var done := order;
      order := order + [idx];
      var newAvail := Release(idx, n, inDegree, dependents, arcs, done);
      ReadyListAdvances(available, newAvail, done, idx, n, arcs);
      available := available[1..];
      if newAvail == [] {
        assert available == available + newAvail;
      } else {
        assert forall k :: 0 <= k < |available + newAvail| ==> (available + newAvail)[k] in available + newAvail;
        available := SortBySource(available + newAvail, src);
      }
    }
    forall j ensures !Ready(order, j, n, arcs) {
      ReadyMeansUnblocked(order, j, n, arcs);
    }
  }

  method InitiallyAvailable(n: nat, src: seq<nat>, inDegree: array<int>, ghost arcs: seq<Arc>)
    returns (available: seq<nat>)
    requires |src| == n && forall i, j :: 0 <= i < j < |src| ==> src[i] < src[j]
    requires inDegree.Length == n && forall j: nat :: j < n ==> inDegree[j] == Blocked(arcs, j, {})
    ensures IsReadyList(available, [], n, arcs)
  {
    available := [];
    for i := 0 to n
      invariant Ascending(available) && Bounded(available, i)
      invariant forall j: nat :: j in available <==> j < i && inDegree[j] == 0
    {
      if inDegree[i] == 0 {
        available := available + [i];
      }
    }
    available := SortBySource(available, src);
    assert Elems([]) == {};
  }

  /** Choosing the first ready node keeps the order greedy. */
  lemma GreedyExtends(order: seq<nat>, idx: nat, n: nat, arcs: seq<Arc>, available: seq<nat>)
    requires Greedy(order, n, arcs) && IsReadyList(available, order, n, arcs)
    requires available != [] && available[0] == idx
    ensures Greedy(order + [idx], n, arcs) && |order| < n
  {
    var p := order + [idx];
    assert idx in available;
    ReadyMeansUnblocked(order, idx, n, arcs);
    forall k | 0 <= k < |p|
      ensures Ready(p[..k], p[k], n, arcs) && forall j :: Ready(p[..k], j, n, arcs) ==> p[k] <= j
    {
      if k < |order| {
        assert p[..k] == order[..k];
      } else {
        assert p[..k] == order;
        forall j | Ready(order, j, n, arcs) ensures idx <= j {
          ReadyMeansUnblocked(order, j, n, arcs);
          assert j in available;
        }
      }
    }
    GreedyIsDistinct(p, n, arcs);
    ElemsSize(p);
    BelowSize(n);
    SubsetSize(Elems(p), Below(n));
  }

  /** Counts down the dependents of `idx` and lists those that reach zero. */
  method Release(
    idx: nat, n: nat, inDegree: array<int>, dependents: array<seq<nat>>, ghost arcs: seq<Arc>, ghost done: seq<nat>)
    returns (newAvail: seq<nat>)
    requires inDegree.Length == dependents.Length == n && idx < n && idx !in done
    requires Within(arcs, n)
    requires forall j: nat :: j < n ==> inDegree[j] == Blocked(arcs, j, Elems(done))
    requires forall j: nat :: multiset(dependents[idx])[j] == Multiplicity(arcs, idx, j)
    modifies inDegree
    ensures forall j: nat :: j < n ==> inDegree[j] == Blocked(arcs, j, Elems(done + [idx]))
    ensures Distinct(newAvail)
    ensures forall j: nat :: j in newAvail <==>
              j < n && Blocked(arcs, j, Elems(done)) > 0 && Blocked(arcs, j, Elems(done + [idx])) == 0
  {
    assert Elems(done + [idx]) == Elems(done) + {idx};
    forall j: nat
      ensures Blocked(arcs, j, Elems(done + [idx])) == Blocked(arcs, j, Elems(done)) - multiset(dependents[idx])[j]
    {
      BlockedDrops(arcs, j, Elems(done), idx);
    }
    DependentsBounded(dependents[idx], idx, n, arcs);
    newAvail := CountDown(dependents[idx], inDegree);
  }

  /** Subtracts one per occurrence and lists the counters that reach zero. */
  method CountDown(deps: seq<nat>, inDegree: array<int>) returns (zeroed: seq<nat>)
    requires Bounded(deps, inDegree.Length)
    requires forall j: nat :: j < inDegree.Length ==> inDegree[j] >= multiset(deps)[j]
    modifies inDegree
    ensures forall j: nat :: j < inDegree.Length ==> inDegree[j] == old(inDegree[j]) - multiset(deps)[j]
    ensures Distinct(zeroed)
    ensures forall j: nat :: j in zeroed <==> j < inDegree.Length && old(inDegree[j]) > 0 && inDegree[j] == 0
  {
    zeroed := [];
    for k := 0 to |deps|
      invariant forall j: nat :: j < inDegree.Length ==> inDegree[j] == old(inDegree[j]) - multiset(deps[..k])[j]
      invariant Distinct(zeroed)
      invariant forall j: nat :: j in zeroed <==> j < inDegree.Length && old(inDegree[j]) > 0 && inDegree[j] == 0
    {
      var d := deps[k];
      assert deps[..k + 1] == deps[..k] + [d];
      assert deps == deps[..k] + [d] + deps[k + 1..];
      assert multiset(deps)[d] >= multiset(deps[..k])[d] + 1;
      inDegree[d] := inDegree[d] - 1;
      if inDegree[d] == 0 {
        zeroed := zeroed + [d];
      }
    }
    assert deps[..|deps|] == deps;
  }

  lemma DependentsBounded(deps: seq<nat>, i: nat, n: nat, arcs: seq<Arc>)
    requires Within(arcs, n) && forall j: nat :: multiset(deps)[j] == Multiplicity(arcs, i, j)
    ensures Bounded(deps, n)
  {
    forall k | 0 <= k < |deps| ensures deps[k] < n {
      assert deps[k] in multiset(deps);
      MultiplicityWitness(arcs, i, deps[k]);
    }
  }

  lemma {:induction false} MultiplicityWitness(arcs: seq<Arc>, i: nat, j: nat)
    requires Multiplicity(arcs, i, j) > 0
    ensures Arc(i, j) in arcs
  {
    if arcs[|arcs| - 1] != Arc(i, j) {
      MultiplicityWitness(arcs[..|arcs| - 1], i, j);
    }
  }

  /** The ready list after `idx` is done: what was ready and what was released. */
  lemma ReadyListAdvances(available: seq<nat>, newAvail: seq<nat>, done: seq<nat>, idx: nat, n: nat, arcs: seq<Arc>)
    requires IsReadyList(available, done, n, arcs) && available != [] && available[0] == idx
    requires forall j :: j in done ==> Blocked(arcs, j, Elems(done)) == 0
    requires Distinct(newAvail)
    requires forall j: nat :: j in newAvail <==>
               j < n && Blocked(arcs, j, Elems(done)) > 0 && Blocked(arcs, j, Elems(done + [idx])) == 0
    ensures var next := available[1..] + newAvail;
            && Distinct(next)
            && (forall j: nat :: j in next <==>
                  j < n && j !in done + [idx] && Blocked(arcs, j, Elems(done + [idx])) == 0)
    ensures forall j :: j in done + [idx] ==> Blocked(arcs, j, Elems(done + [idx])) == 0
  {
    assert idx in available;
    assert Elems(done + [idx]) == Elems(done) + {idx};
    forall j: nat ensures Blocked(arcs, j, Elems(done + [idx])) <= Blocked(arcs, j, Elems(done)) {
      BlockedDrops(arcs, j, Elems(done), idx);
    }
    assert available == [idx] + available[1..];
    assert forall j :: j in available[1..] ==> j in available && j != idx;
    assert forall j :: j in available && j != idx ==> j in available[1..];
    DistinctConcat(available[1..], newAvail);
  }

  lemma DistinctConcat(a: seq<nat>, b: seq<nat>)
    requires Distinct(a) && Distinct(b) && forall x :: x in a ==> x !in b
    ensures Distinct(a + b)
  {
    forall i, j | 0 <= i < j < |a + b| ensures (a + b)[i] != (a + b)[j] {
      if i < |a| <= j {
        assert a[i] in a && b[j - |a|] in b;
      }
    }
  }

  // ----- what the result means -----

  /** The result is determined by the input. */
  lemma {:induction false} LeastOrderIsUnique(blocks: seq<Block>, a: seq<Block>, b: seq<Block>)
    requires IsLeastOrder(blocks, a) && IsLeastOrder(blocks, b)
    ensures a == b
  {
    var es := Entries(blocks);
    var p :| LeastTopological(p, |es|, Arcs(es)) && a == Place(es, p) + Others(blocks);
    var q :| LeastTopological(q, |es|, Arcs(es)) && b == Place(es, q) + Others(blocks);
    LeastIsUnique(p, q, |es|, Arcs(es));
  }

  /** A list whose participating blocks already follow what they depend on
      keeps their order; with the other blocks last, it comes back unchanged. */
  lemma OrderedInputIsUnchanged(blocks: seq<Block>, out: seq<Block>)
    requires IsLeastOrder(blocks, out)
    requires var es := Entries(blocks); Topological(Identity(|es|), |es|, Arcs(es))
    ensures out == Entries(blocks) + Others(blocks)
    ensures blocks == Entries(blocks) + Others(blocks) ==> out == blocks
  {
    var es := Entries(blocks);
    var p :| LeastTopological(p, |es|, Arcs(es)) && out == Place(es, p) + Others(blocks);
    IdentityIsLeast(|es|, Arcs(es));
    LeastIsUnique(p, Identity(|es|), |es|, Arcs(es));
    assert Place(es, p) == es;
  }

  lemma DropLargest(p: seq<nat>, n: nat, k: nat)
    requires IsOrder(p, n + 1) && k < |p| && p[k] == n
    ensures IsOrder(p[..k] + p[k + 1..], n)
  {
    var rest := p[..k] + p[k + 1..];
    assert forall i :: 0 <= i < |rest| ==> rest[i] == p[if i < k then i else i + 1];
  }

  lemma RemoveAt(s: seq<Block>, k: nat)
    requires k < |s|
    ensures multiset(s) == multiset(s[..k] + s[k + 1..]) + multiset{s[k]}
  {
    assert s == s[..k] + [s[k]] + s[k + 1..];
  }

  lemma {:induction false} PlacePermutes(es: seq<Block>, p: seq<nat>)
    requires IsOrder(p, |es|)
    ensures multiset(Place(es, p)) == multiset(es)
    decreases |es|
  {
    if es == [] {
      assert Place(es, p) == [];
    } else {
      var n := |es| - 1;
      OrderHasAll(p, |es|, n);
      var k :| 0 <= k < |p| && p[k] == n;
      DropLargest(p, n, k);
      PlacePermutes(es[..n], p[..k] + p[k + 1..]);
      PlaceWithout(es, p, k);
      RemoveAt(Place(es, p), k);
      assert es == es[..n] + [es[n]];
    }
  }

  lemma PlaceWithout(es: seq<Block>, p: seq<nat>, k: nat)
    requires IsOrder(p, |es|) && k < |p| && p[k] == |es| - 1
    requires IsOrder(p[..k] + p[k + 1..], |es| - 1)
    ensures Place(es[..|es| - 1], p[..k] + p[k + 1..]) == Place(es, p)[..k] + Place(es, p)[k + 1..]
  {
  }

  lemma {:induction false} EntriesAndOthers(blocks: seq<Block>)
    ensures multiset(Entries(blocks)) + multiset(Others(blocks)) == multiset(blocks)
  {
    if blocks != [] {
      EntriesAndOthers(blocks[..|blocks| - 1]);
      assert blocks == blocks[..|blocks| - 1] + [blocks[|blocks| - 1]];
    }
  }

  /** No block is lost, added or repeated. */
  lemma SortingPermutes(blocks: seq<Block>, out: seq<Block>)
    requires IsLeastOrder(blocks, out)
    ensures multiset(out) == multiset(blocks)
  {
    var es := Entries(blocks);
    var p :| LeastTopological(p, |es|, Arcs(es)) && out == Place(es, p) + Others(blocks);
    PlacePermutes(es, p);
    EntriesAndOthers(blocks);
  }

  // ----- arcs and references -----

  lemma {:induction false} ArcsIntoMeans(es: seq<Block>, j: nat, deps: seq<string>, i: nat, to: nat)
    ensures Arc(i, to) in ArcsInto(es, j, deps) <==> to == j && exists d :: d in deps && Resolve(es, d) == Found(i)
  {
    if deps != [] {
      var n := |deps| - 1;
      ArcsIntoMeans(es, j, deps[..n], i, to);
      assert deps == deps[..n] + [deps[n]];
      assert forall d :: d in deps <==> d in deps[..n] || d == deps[n];
    }
  }

  lemma {:induction false} ArcsUpToMeans(es: seq<Block>, n: nat, i: nat, j: nat)
    requires n <= |es|
    ensures Arc(i, j) in ArcsUpTo(es, n) <==> j < n && exists d :: d in es[j].deps && Resolve(es, d) == Found(i)
  {
    if n > 0 {
      ArcsUpToMeans(es, n - 1, i, j);
      ArcsIntoMeans(es, n - 1, es[n - 1].deps, i, j);
    }
  }

  /** `j` depends on `i` exactly when one of its references resolves to `i`. */
  lemma ArcMeansReference(es: seq<Block>, i: nat, j: nat)
    ensures Arc(i, j) in Arcs(es) <==> j < |es| && exists d :: d in es[j].deps && Resolve(es, d) == Found(i)
  {
    ArcsUpToMeans(es, |es|, i, j);
  }

  // ----- who takes part -----

  /** A block takes part exactly when its type has a handler that names it;
      those that do, and those that do not, keep their order. */
  lemma {:induction false} EachBlockHasItsPlace(blocks: seq<Block>, i: nat)
    requires i < |blocks|
    ensures |Entries(blocks)| + |Others(blocks)| == |blocks|
    ensures if blocks[i].handled && blocks[i].id != "" then
              |Entries(blocks[..i])| < |Entries(blocks)| && Entries(blocks)[|Entries(blocks[..i])|] == blocks[i]
            else
              |Others(blocks[..i])| < |Others(blocks)| && Others(blocks)[|Others(blocks[..i])|] == blocks[i]
  {
    var n := |blocks| - 1;
    if n > 0 {
      EachBlockHasItsPlace(blocks[..n], if i < n then i else 0);
    }
    assert i < n ==> blocks[..n][..i] == blocks[..i];
  }

  predicate HidesDependencies(b: Block) {
    b.handled && b.id != "" && b.depsError
  }

  predicate SomeHides(blocks: seq<Block>) {
    exists i :: 0 <= i < |blocks| && HidesDependencies(blocks[i])
  }

  lemma DepErrorLast(es: seq<Block>, b: Block)
    ensures HasDepError(es + [b]) <==> HasDepError(es) || b.depsError
  {
    var all := es + [b];
    assert all[|es|] == b && forall i :: 0 <= i < |es| ==> all[i] == es[i];
  }

  lemma HidesLast(blocks: seq<Block>, b: Block)
    ensures SomeHides(blocks + [b]) <==> SomeHides(blocks) || HidesDependencies(b)
  {
    var all := blocks + [b];
    assert all[|blocks|] == b && forall i :: 0 <= i < |blocks| ==> all[i] == blocks[i];
  }

  /** Sorting stops on dependencies exactly if those of some block that takes
      part could not be told. */
  lemma {:induction false} ErrorsComeFromBlocks(blocks: seq<Block>)
    ensures HasDepError(Entries(blocks)) <==> SomeHides(blocks)
  {
    if blocks != [] {
      var p, last := blocks[..|blocks| - 1], blocks[|blocks| - 1];
      ErrorsComeFromBlocks(p);
      assert blocks == p + [last];
      HidesLast(p, last);
      DepErrorLast(Entries(p), last);
      assert Entries(blocks) == if Participates(last) then Entries(p) + [last] else Entries(p);
    }
  }
}
