/** Bounded shortest path between two nodes of the architecture graph, edges taken either way. */
module ShortestPath {
  import opened Wrappers

  type Node = string

  datatype Edge = Edge(source: Node, target: Node)

  /** Neighbour lists by node, in edge order: targets in `outs`, sources in `ins`. */
  datatype ConnIndex = ConnIndex(outs: map<Node, seq<Node>>, ins: map<Node, seq<Node>>)

  function Lookup(m: map<Node, seq<Node>>, n: Node): seq<Node> {
    if n in m then m[n] else []
  }

  function Neighbours(index: ConnIndex, n: Node): seq<Node> {
    Lookup(index.outs, n) + Lookup(index.ins, n)
  }

  predicate Adjacent(edges: seq<Edge>, a: Node, b: Node) {
    Edge(a, b) in edges || Edge(b, a) in edges
  }

  /** The index lists exactly the undirected neighbours of every node. */
  ghost predicate Indexes(index: ConnIndex, edges: seq<Edge>) {
    forall a, b :: b in Neighbours(index, a) <==> Adjacent(edges, a, b)
  }

  method BuildConnIndex(edges: seq<Edge>) returns (index: ConnIndex)
    ensures forall a, b :: b in Lookup(index.outs, a) <==> Edge(a, b) in edges
    ensures forall a, b :: b in Lookup(index.ins, a) <==> Edge(b, a) in edges
  {
    index := ConnIndex(map[], map[]);
    for i := 0 to |edges|
      invariant forall a, b :: b in Lookup(index.outs, a) <==> Edge(a, b) in edges[..i]
      invariant forall a, b :: b in Lookup(index.ins, a) <==> Edge(b, a) in edges[..i]
    {
      var e := edges[i];
      assert edges[..i + 1] == edges[..i] + [e];
      index := ConnIndex(
        index.outs[e.source := Lookup(index.outs, e.source) + [e.target]],
        index.ins[e.target := Lookup(index.ins, e.target) + [e.source]]);
    }
    assert edges[..|edges|] == edges;
  }

  // ----- walks and distance

  ghost predicate Walk(edges: seq<Edge>, w: seq<Node>, f: Node, t: Node) {
    && w != [] && w[0] == f && w[|w| - 1] == t
    && forall i | 0 <= i < |w| - 1 :: Adjacent(edges, w[i], w[i + 1])
  }

  /** A walk of at most `k` hops leads from `f` to `t`. */
  ghost predicate Within(edges: seq<Edge>, f: Node, t: Node, k: int) {
    exists w :: Walk(edges, w, f, t) && |w| - 1 <= k
  }

  /** A node within `k + 1` hops is within `k`, or next to a node that is. */
  lemma WithinHasPredecessor(edges: seq<Edge>, f: Node, b: Node, k: int)
    requires k >= 0 && Within(edges, f, b, k + 1)
    ensures Within(edges, f, b, k) || exists a :: Within(edges, f, a, k) && Adjacent(edges, a, b)
  {
    var w :| Walk(edges, w, f, b) && |w| - 1 <= k + 1;
    if |w| - 1 > k && |w| > 1 {
      var a := w[|w| - 2];
      assert Walk(edges, w[..|w| - 1], f, a);
      assert Within(edges, f, a, k) && Adjacent(edges, a, b);
    }
  }

  /** A set closed under adjacency that holds `f` holds every node a walk from `f` leads to. */
  lemma {:induction false} ClosedSetHoldsWalks(edges: seq<Edge>, closed: set<Node>, w: seq<Node>, f: Node, t: Node)
    requires Walk(edges, w, f, t) && f in closed
    requires forall a, b :: a in closed && Adjacent(edges, a, b) ==> b in closed
    ensures t in closed
    decreases |w|
  {
    if |w| > 1 {
      ClosedSetHoldsWalks(edges, closed, w[..|w| - 1], f, w[|w| - 2]);
      assert Adjacent(edges, w[|w| - 2], t);
    }
  }

  // ----- the breadth-first search

  function Last(p: seq<Node>): Node {
    if p == [] then "" else p[|p| - 1]
  }

  ghost predicate Expanded(edges: seq<Edge>, seen: set<Node>, a: Node) {
    forall b :: Adjacent(edges, a, b) ==> b in seen
  }

  ghost predicate QueuedAt(q: seq<seq<Node>>, a: Node, hops: int) {
    exists p :: p in q && Last(p) == a && |p| - 1 == hops
  }

  /** The queue holds walks of `d` hops, then walks of `d + 1`, each to a node seen before. */
  ghost predicate QueueInv(edges: seq<Edge>, f: Node, q: seq<seq<Node>>, seen: set<Node>, d: nat) {
    && (forall i | 0 <= i < |q| :: Walk(edges, q[i], f, Last(q[i])) && Last(q[i]) in seen)
    && (forall i | 0 <= i < |q| :: d <= |q[i]| - 1 <= d + 1)
    && (forall i, j | 0 <= i < j < |q| :: |q[i]| <= |q[j]|)
  }

  /**
   Every node within `d` hops has been seen; every seen node but `open` has had its neighbours
   seen or still waits in the queue, at level `d` if it is within `d` hops.
   */
  ghost predicate SearchInv(edges: seq<Edge>, f: Node, q: seq<seq<Node>>, seen: set<Node>, d: nat, open: set<Node>) {
    && (forall a :: Within(edges, f, a, d) ==> a in seen)
    && (forall a | a in seen :: a in open || Expanded(edges, seen, a) || QueuedAt(q, a, d) || QueuedAt(q, a, d + 1))
    && (forall a :: Within(edges, f, a, d) ==> a in open || Expanded(edges, seen, a) || QueuedAt(q, a, d))
  }

  lemma SearchStarts(edges: seq<Edge>, f: Node)
    ensures Within(edges, f, f, 0)
    ensures QueueInv(edges, f, [[f]], {f}, 0) && SearchInv(edges, f, [[f]], {f}, 0, {})
  {
    assert Walk(edges, [f], f, f);
    assert [f] in [[f]];
  }

  /** With level `d` exhausted the search stands at level `d + 1`. */
  lemma LevelUp(edges: seq<Edge>, f: Node, q: seq<seq<Node>>, seen: set<Node>, d: nat)
    requires QueueInv(edges, f, q, seen, d) && SearchInv(edges, f, q, seen, d, {})
    requires q != [] && |q[0]| - 1 == d + 1
    ensures QueueInv(edges, f, q, seen, d + 1) && SearchInv(edges, f, q, seen, d + 1, {})
  {
    forall a
      ensures !QueuedAt(q, a, d)
    {
    }
    forall a | Within(edges, f, a, d + 1)
      ensures a in seen
    {
      WithinHasPredecessor(edges, f, a, d);
    }
  }

  /** The search between two turns of its loop; once a walk was too long nothing more can be found. */
  ghost predicate LoopInv(edges: seq<Edge>, f: Node, t: Node, m: int, q: seq<seq<Node>>, seen: set<Node>, d: nat, pruned: bool) {
    && f in seen && t !in seen && seen <= Universe(edges, f)
    && QueueInv(edges, f, q, seen, d)
    && if pruned then d >= m && !Within(edges, f, t, m) else SearchInv(edges, f, q, seen, d, {})
  }

  /** Popping the head: the level it stands at, and what is then known of it and of the rest. */
  lemma Pop(edges: seq<Edge>, f: Node, t: Node, m: int, q: seq<seq<Node>>, seen: set<Node>, d: nat, pruned: bool)
      returns (d': nat)
    requires LoopInv(edges, f, t, m, q, seen, d, pruned) && q != []
    ensures |q[0]| <= m ==> !pruned && d' == |q[0]| - 1
    ensures |q[0]| <= m ==> Walk(edges, q[0], f, Last(q[0])) && SearchInv(edges, f, q[1..], seen, d', {Last(q[0])})
    ensures |q[0]| > m ==> LoopInv(edges, f, t, m, q[1..], seen, d', true)
    ensures QueueInv(edges, f, q[1..], seen, d')
  {
    d' := d;
    if !pruned {
      if |q[0]| - 1 == d + 1 {
        LevelUp(edges, f, q, seen, d);
        d' := d + 1;
      }
      PopOpens(edges, f, q, seen, d');
      if |q[0]| > m {
        SeenFarEnough(edges, f, t, m, seen, d');
      }
    }
  }

  lemma SeenFarEnough(edges: seq<Edge>, f: Node, t: Node, m: int, seen: set<Node>, d: nat)
    requires forall a :: Within(edges, f, a, d) ==> a in seen
    requires t !in seen && d >= m
    ensures !Within(edges, f, t, m)
  {
    assert forall w :: Walk(edges, w, f, t) && |w| - 1 <= m ==> Within(edges, f, t, d);
  }

  lemma PopOpens(edges: seq<Edge>, f: Node, q: seq<seq<Node>>, seen: set<Node>, d: nat)
    requires QueueInv(edges, f, q, seen, d) && SearchInv(edges, f, q, seen, d, {}) && q != []
    ensures SearchInv(edges, f, q[1..], seen, d, {Last(q[0])})
  {
    forall a, hops | QueuedAt(q, a, hops) && a != Last(q[0])
      ensures QueuedAt(q[1..], a, hops)
    {
      var p :| p in q && Last(p) == a && |p| - 1 == hops;
      assert p in q[1..];
    }
  }

  lemma PushKeepsQueue(edges: seq<Edge>, f: Node, q: seq<seq<Node>>, seen: set<Node>, d: nat, p: seq<Node>, n: Node)
    requires QueueInv(edges, f, q, seen, d)
    requires Walk(edges, p, f, Last(p)) && |p| - 1 == d && Adjacent(edges, Last(p), n)
    ensures QueueInv(edges, f, q + [p + [n]], seen + {n}, d)
  {
    assert Walk(edges, p + [n], f, n) && Last(p + [n]) == n;
  }

  lemma QueuedStays(q: seq<seq<Node>>, p: seq<Node>)
    requires p != []
    ensures forall a, hops :: QueuedAt(q, a, hops) ==> QueuedAt(q + [p], a, hops)
    ensures QueuedAt(q + [p], Last(p), |p| - 1)
  {
    assert p in q + [p];
    forall a, hops | QueuedAt(q, a, hops)
      ensures QueuedAt(q + [p], a, hops)
    {
      var r :| r in q && Last(r) == a && |r| - 1 == hops;
      assert r in q + [p];
    }
  }

  lemma PushKeeps(edges: seq<Edge>, f: Node, q: seq<seq<Node>>, seen: set<Node>, d: nat, p: seq<Node>, n: Node)
    requires QueueInv(edges, f, q, seen, d) && SearchInv(edges, f, q, seen, d, {Last(p)})
    requires Walk(edges, p, f, Last(p)) && |p| - 1 == d && Adjacent(edges, Last(p), n) && n !in seen
    ensures QueueInv(edges, f, q + [p + [n]], seen + {n}, d)
    ensures SearchInv(edges, f, q + [p + [n]], seen + {n}, d, {Last(p)})
  {
    PushKeepsQueue(edges, f, q, seen, d, p, n);
    QueuedStays(q, p + [n]);
    assert Last(p + [n]) == n;
  }

  /** Once the queue is empty every node that any walk from `f` leads to has been seen. */
  lemma ExhaustedSearchSawAll(edges: seq<Edge>, f: Node, t: Node, seen: set<Node>, d: nat)
    requires SearchInv(edges, f, [], seen, d, {}) && f in seen && t !in seen
    ensures forall w :: !Walk(edges, w, f, t)
  {
    forall w | Walk(edges, w, f, t)
      ensures false
    {
      ClosedSetHoldsWalks(edges, seen, w, f, t);
    }
  }

  /** Every node the search can meet. */
  function Universe(edges: seq<Edge>, f: Node): set<Node> {
    {f} + (set e | e in edges :: e.source) + (set e | e in edges :: e.target)
  }

  /** What the search promises: a walk of fewest hops, or none exactly when none has at most `m`. */
  ghost predicate IsAnswer(edges: seq<Edge>, f: Node, t: Node, m: int, path: Option<seq<Node>>) {
    match path
    case Some(w) =>
      && Walk(edges, w, f, t)
      && (f != t ==> |w| - 1 <= m)
      && forall w' :: Walk(edges, w', f, t) ==> |w| <= |w'|
    case None => f != t && !Within(edges, f, t, m)
  }

  /** A hop from the end of a queued walk to the target completes a shortest walk. */
  lemma HopToTargetIsShortest(edges: seq<Edge>, f: Node, t: Node, m: int, p: seq<Node>, seen: set<Node>, d: nat)
    requires f != t && Walk(edges, p, f, Last(p)) && |p| - 1 == d && |p| <= m
    requires Adjacent(edges, Last(p), t) && t !in seen
    requires forall a :: Within(edges, f, a, d) ==> a in seen
    ensures IsAnswer(edges, f, t, m, Some(p + [t]))
  {
    assert Walk(edges, p + [t], f, t);
    forall w | Walk(edges, w, f, t)
      ensures |p + [t]| <= |w|
    {
      assert |w| - 1 <= d ==> Within(edges, f, t, d);
    }
  }

  /** A node all of whose neighbours have been seen needs no exception. */
  lemma ExpandedIsClosed(edges: seq<Edge>, f: Node, q: seq<seq<Node>>, seen: set<Node>, d: nat, c: Node)
    requires SearchInv(edges, f, q, seen, d, {c}) && Expanded(edges, seen, c)
    ensures SearchInv(edges, f, q, seen, d, {})
  {
  }

  /** The nodes next to `c`, all of which the search can meet. */
  ghost predicate IsNeighbourhood(edges: seq<Edge>, f: Node, c: Node, nb: seq<Node>) {
    forall n :: (n in nb <==> Adjacent(edges, c, n)) && (n in nb ==> n in Universe(edges, f))
  }

  lemma IndexYieldsNeighbourhood(index: ConnIndex, edges: seq<Edge>, f: Node, c: Node)
    requires Indexes(index, edges)
    ensures IsNeighbourhood(edges, f, c, Neighbours(index, c))
  {
  }

  lemma UnseenTargetIsNext(edges: seq<Edge>, f: Node, t: Node, m: int, p: seq<Node>, q: seq<seq<Node>>, seen: set<Node>, d: nat)
    requires f != t && Walk(edges, p, f, Last(p)) && |p| - 1 == d && |p| <= m
    requires Adjacent(edges, Last(p), t) && t !in seen && SearchInv(edges, f, q, seen, d, {Last(p)})
    ensures IsAnswer(edges, f, t, m, Some(p + [t]))
  {
    HopToTargetIsShortest(edges, f, t, m, p, seen, d);
  }

  lemma PushMeets(edges: seq<Edge>, f: Node, q: seq<seq<Node>>, seen: set<Node>, d: nat, p: seq<Node>, n: Node, nb: seq<Node>)
    requires IsNeighbourhood(edges, f, Last(p), nb) && n in nb && n !in seen && seen <= Universe(edges, f)
    requires QueueInv(edges, f, q, seen, d) && SearchInv(edges, f, q, seen, d, {Last(p)})
    requires Walk(edges, p, f, Last(p)) && |p| - 1 == d
    ensures QueueInv(edges, f, q + [p + [n]], seen + {n}, d) && SearchInv(edges, f, q + [p + [n]], seen + {n}, d, {Last(p)})
    ensures seen < seen + {n} <= Universe(edges, f)
  {
    PushKeeps(edges, f, q, seen, d, p, n);
  }

  /** A node all of whose neighbours have been met is closed. */
  lemma AllMetIsClosed(edges: seq<Edge>, f: Node, q: seq<seq<Node>>, seen: set<Node>, d: nat, c: Node, nb: seq<Node>)
    requires IsNeighbourhood(edges, f, c, nb) && (forall i | 0 <= i < |nb| :: nb[i] in seen)
    requires SearchInv(edges, f, q, seen, d, {c})
    ensures SearchInv(edges, f, q, seen, d, {})
  {
    assert Expanded(edges, seen, c);
    ExpandedIsClosed(edges, f, q, seen, d, c);
  }

  /** What holds while the neighbours of `c` are met. */
  ghost predicate Meeting(edges: seq<Edge>, f: Node, t: Node, q: seq<seq<Node>>, seen: set<Node>, d: nat, c: Node) {
    && t !in seen && seen <= Universe(edges, f)
    && QueueInv(edges, f, q, seen, d) && SearchInv(edges, f, q, seen, d, {c})
  }

  /** One turn of the loop over the neighbours. */
  method MeetOne(n: Node, ghost nb: seq<Node>, ghost edges: seq<Edge>, ghost f: Node, t: Node, ghost m: int, p: seq<Node>,
                 rest: seq<seq<Node>>, before: set<Node>, ghost d: nat)
      returns (found: bool, q: seq<seq<Node>>, seen: set<Node>)
    requires IsNeighbourhood(edges, f, Last(p), nb) && n in nb && f != t && Meeting(edges, f, t, rest, before, d, Last(p))
    requires Walk(edges, p, f, Last(p)) && |p| - 1 == d && |p| <= m
    ensures found ==> IsAnswer(edges, f, t, m, Some(p + [t]))
    ensures !found ==> Meeting(edges, f, t, q, seen, d, Last(p)) && n in seen
    ensures !found ==> before < seen || (seen == before && q == rest)
  {
    if n == t {
      UnseenTargetIsNext(edges, f, t, m, p, rest, before, d);
      return true, rest, before;
    }
    if n in before { return false, rest, before; }
    PushMeets(edges, f, rest, before, d, p, n, nb);
    return false, rest + [p + [n]], before + {n};
  }

  /** The loop over the neighbours of the end of `p`: finds the target, or queues the unseen ones. */
  method Meet(nb: seq<Node>, ghost edges: seq<Edge>, ghost f: Node, t: Node, ghost m: int, p: seq<Node>,
              rest: seq<seq<Node>>, before: set<Node>, ghost d: nat)
      returns (found: bool, q: seq<seq<Node>>, seen: set<Node>)
    requires IsNeighbourhood(edges, f, Last(p), nb) && f != t && f in before && t !in before && before <= Universe(edges, f)
    requires Walk(edges, p, f, Last(p)) && |p| - 1 == d && |p| <= m
    requires QueueInv(edges, f, rest, before, d) && SearchInv(edges, f, rest, before, d, {Last(p)})
    ensures found ==> IsAnswer(edges, f, t, m, Some(p + [t]))
    ensures !found ==> f in seen && t !in seen && before <= seen <= Universe(edges, f)
    ensures !found ==> QueueInv(edges, f, q, seen, d) && SearchInv(edges, f, q, seen, d, {})
    ensures !found ==> before < seen || q == rest
  {
    ghost var c := Last(p);
    q, seen := rest, before;
    for j := 0 to |nb|
      invariant Meeting(edges, f, t, q, seen, d, c) && before <= seen
      invariant forall i | 0 <= i < j :: nb[i] in seen
      invariant before < seen || (seen == before && q == rest)
    {
      found, q, seen := MeetOne(nb[j], nb, edges, f, t, m, p, q, seen, d);
      if found { return; }
    }
    AllMetIsClosed(edges, f, q, seen, d, c, nb);
    found := false;
  }

  /** Expands the end of `p` along the index. */
  method Expand(index: ConnIndex, ghost edges: seq<Edge>, ghost f: Node, t: Node, ghost m: int, p: seq<Node>,
                rest: seq<seq<Node>>, before: set<Node>, ghost d: nat)
      returns (found: bool, q: seq<seq<Node>>, seen: set<Node>)
    requires Indexes(index, edges) && f != t && f in before && t !in before && before <= Universe(edges, f)
    requires Walk(edges, p, f, Last(p)) && |p| - 1 == d && |p| <= m
    requires QueueInv(edges, f, rest, before, d) && SearchInv(edges, f, rest, before, d, {Last(p)})
    ensures found ==> IsAnswer(edges, f, t, m, Some(p + [t]))
    ensures !found ==> f in seen && t !in seen && before <= seen <= Universe(edges, f)
    ensures !found ==> QueueInv(edges, f, q, seen, d) && SearchInv(edges, f, q, seen, d, {})
    ensures !found ==> before < seen || q == rest
  {
    var c := p[|p| - 1];
    var nb := Neighbours(index, c);
    IndexYieldsNeighbourhood(index, edges, f, c);
    found, q, seen := Meet(nb, edges, f, t, m, p, rest, before, d);
  }

  method FindShortestPath(index: ConnIndex, ghost edges: seq<Edge>, f: Node, t: Node, m: int) returns (path: Option<seq<Node>>)
    requires Indexes(index, edges)
    ensures IsAnswer(edges, f, t, m, path)
  {
    if f == t {
      assert Walk(edges, [f], f, t);
      return Some([f]);
    }
    var q, seen := [[f]], {f};
    ghost var d: nat := 0;
    ghost var pruned := false;
    SearchStarts(edges, f);
    while q != []
      invariant LoopInv(edges, f, t, m, q, seen, d, pruned)
      decreases Universe(edges, f) - seen, |q|
    {
      var p := q[0];
      d := Pop(edges, f, t, m, q, seen, d, pruned);
      q := q[1..];
      if |p| > m {
        pruned := true;
        continue;
      }
      var found;
      found, q, seen := Expand(index, edges, f, t, m, p, q, seen, d);
      if found { return Some(p + [t]); }
    }
    if !pruned {
      ExhaustedSearchSawAll(edges, f, t, seen, d);
    }
    return None;
  }

  /** Indexing the raw edges and searching the index answers for the graph of those edges. */
  method PathBetween(edges: seq<Edge>, f: Node, t: Node, m: int) returns (path: Option<seq<Node>>)
    ensures IsAnswer(edges, f, t, m, path)
  {
    var index := BuildConnIndex(edges);
    path := FindShortestPath(index, edges, f, t, m);
  }

  /** Edges are taken either way: an answer read backwards answers the opposite question. */
  lemma AnswersReverse(edges: seq<Edge>, f: Node, t: Node, m: int, path: Option<seq<Node>>, back: Option<seq<Node>>)
    requires IsAnswer(edges, f, t, m, path) && IsAnswer(edges, t, f, m, back)
    ensures path.Some? == back.Some?
    ensures path.Some? ==> |path.value| == |back.value|
  {
    if path.Some? { ReversedWalk(edges, path.value, f, t); }
    if back.Some? { ReversedWalk(edges, back.value, t, f); }
  }

  lemma ReversedWalk(edges: seq<Edge>, w: seq<Node>, f: Node, t: Node)
    requires Walk(edges, w, f, t)
    ensures exists w' :: Walk(edges, w', t, f) && |w'| == |w|
  {
    var w' := seq(|w|, i requires 0 <= i < |w| => w[|w| - 1 - i]);
    forall i | 0 <= i < |w'| - 1
      ensures Adjacent(edges, w'[i], w'[i + 1])
    {
      assert Adjacent(edges, w[|w| - 2 - i], w[|w| - 2 - i + 1]);
    }
    assert Walk(edges, w', t, f);
  }
}
