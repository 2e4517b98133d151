/** Vertices, one node's stored part of the DAG, and the causal history a commit
    walks (internal/consensus/store.go, internal/consensus/anchor.go). */
module Dag {
  import opened Common

  datatype Vertex = Vertex(round: nat, producer: Hash, parents: seq<Hash>)

  type Graph = map<Hash, Vertex>

  /** What a node holds: its stored vertices, the vertices already folded into a
      commit batch, and the floor a snapshot import set, if any. */
  datatype View = View(vertices: Graph, committed: set<Hash>, floor: Option<nat>)

  predicate BelowFloor(v: View, round: nat)
  {
    v.floor.Some? && round <= v.floor.value
  }

  /** A vertex the causal walk collects and walks through. */
  predicate Live(v: View, h: Hash)
  {
    h in v.vertices && h !in v.committed && !BelowFloor(v, v.vertices[h].round)
  }

  predicate Edge(v: View, from: Hash, to: Hash)
  {
    Live(v, from) && to in v.vertices[from].parents
  }

  ghost predicate ReachIn(v: View, from: Hash, to: Hash, steps: nat)
    decreases steps
  {
    if steps == 0 then from == to
    else exists mid :: ReachIn(v, from, mid, steps - 1) && Edge(v, mid, to)
  }

  /** `to` is met by the causal walk from `from`. */
  ghost predicate Reach(v: View, from: Hash, to: Hash)
  {
    exists steps: nat :: ReachIn(v, from, to, steps)
  }

  /** The not-yet-committed causal history of a vertex, itself included. */
  ghost function History(v: View, anchor: Hash): set<Hash>
  {
    set h | h in v.vertices && Live(v, h) && Reach(v, anchor, h)
  }

  /** No vertex the walk needs is absent. */
  ghost predicate Complete(v: View, anchor: Hash)
  {
    forall h :: Reach(v, anchor, h) && h !in v.committed ==> h in v.vertices
  }

  /** Parents sit at the round just below. */
  ghost predicate Layered(g: Graph)
  {
    forall h, p :: h in g && p in g[h].parents && p in g ==> g[h].round == g[p].round + 1
  }

  /** Every link of a live vertex is stored or already committed. */
  ghost predicate CausallyClosed(v: View)
  {
    forall h, p :: Edge(v, h, p) ==> p in v.vertices || p in v.committed
  }

  ghost predicate PartOf(part: Graph, whole: Graph)
  {
    forall h :: h in part ==> h in whole && whole[h] == part[h]
  }

  /** A vertex is always part of its own walk. */
  lemma ReachSelf(v: View, h: Hash)
    ensures Reach(v, h, h)
  {
    assert ReachIn(v, h, h, 0);
  }

  lemma ReachStep(v: View, from: Hash, mid: Hash, to: Hash)
    requires Reach(v, from, mid) && Edge(v, mid, to)
    ensures Reach(v, from, to)
  {
    var n: nat :| ReachIn(v, from, mid, n);
    assert ReachIn(v, from, to, n + 1);
  }

  /** A walk may also be extended at its start. */
  lemma ReachVia(v: View, from: Hash, mid: Hash, to: Hash)
    requires Edge(v, from, mid) && Reach(v, mid, to)
    ensures Reach(v, from, to)
  {
    var n: nat :| ReachIn(v, mid, to, n);
    ReachInVia(v, from, mid, to, n);
  }

  lemma {:induction false} ReachInVia(v: View, from: Hash, mid: Hash, to: Hash, n: nat)
    requires Edge(v, from, mid) && ReachIn(v, mid, to, n)
    ensures ReachIn(v, from, to, n + 1)
    decreases n
  {
    if n == 0 {
      assert ReachIn(v, from, from, 0);
    } else {
      var last :| ReachIn(v, mid, last, n - 1) && Edge(v, last, to);
      ReachInVia(v, from, mid, last, n - 1);
    }
  }

  /** A set that holds the start and every link of its live members holds the walk. */
  lemma {:induction false} WalkStaysIn(v: View, from: Hash, to: Hash, n: nat, s: set<Hash>)
    requires ReachIn(v, from, to, n) && from in s
    requires forall h, p :: h in s && Edge(v, h, p) ==> p in s
    ensures to in s
    decreases n
  {
    if n > 0 {
      var mid :| ReachIn(v, from, mid, n - 1) && Edge(v, mid, to);
      WalkStaysIn(v, from, mid, n - 1, s);
    }
  }

  /** In a layered store a walk of n edges descends n rounds. */
  lemma {:induction false} WalkDescends(v: View, from: Hash, to: Hash, n: nat)
    requires Layered(v.vertices) && ReachIn(v, from, to, n)
    requires from in v.vertices && to in v.vertices
    ensures v.vertices[from].round == v.vertices[to].round + n
    decreases n
  {
    if n > 0 {
      var mid :| ReachIn(v, from, mid, n - 1) && Edge(v, mid, to);
      WalkDescends(v, from, mid, n - 1);
    }
  }

  /** In a causally closed view the walk from a live vertex never meets a gap. */
  lemma ClosedIsComplete(v: View, anchor: Hash)
    requires CausallyClosed(v) && anchor in v.vertices
    ensures Complete(v, anchor)
  {
    forall h | Reach(v, anchor, h) && h !in v.committed
      ensures h in v.vertices
    {
      var n: nat :| ReachIn(v, anchor, h, n);
      if n > 0 {
        var mid :| ReachIn(v, anchor, mid, n - 1) && Edge(v, mid, h);
      }
    }
  }

  /** The history of an anchor depends on what is committed and on the floor, not on
      what else a node stores. */
  lemma HistoryIsShared(dag: Graph, a: View, b: View, anchor: Hash)
    requires PartOf(a.vertices, dag) && PartOf(b.vertices, dag)
    requires a.committed == b.committed && a.floor == b.floor
    requires Complete(a, anchor) && Complete(b, anchor)
    ensures History(a, anchor) == History(b, anchor)
  {
    HistoryIncluded(dag, a, b, anchor);
    HistoryIncluded(dag, b, a, anchor);
  }

  lemma HistoryIncluded(dag: Graph, a: View, b: View, anchor: Hash)
    requires PartOf(a.vertices, dag) && PartOf(b.vertices, dag)
    requires a.committed == b.committed && a.floor == b.floor && Complete(b, anchor)
    ensures History(a, anchor) <= History(b, anchor)
  {
    forall h | h in History(a, anchor) ensures h in History(b, anchor) {
      var n: nat :| ReachIn(a, anchor, h, n);
      ReachIsShared(dag, a, b, anchor, h, n);
    }
  }

  lemma {:induction false} ReachIsShared(dag: Graph, a: View, b: View, anchor: Hash, h: Hash, n: nat)
    requires PartOf(a.vertices, dag) && PartOf(b.vertices, dag)
    requires a.committed == b.committed && a.floor == b.floor && Complete(b, anchor)
    requires ReachIn(a, anchor, h, n)
    ensures Reach(b, anchor, h)
    decreases n
  {
    if n == 0 {
      ReachSelf(b, anchor);
    } else {
      var mid :| ReachIn(a, anchor, mid, n - 1) && Edge(a, mid, h);
      ReachIsShared(dag, a, b, anchor, mid, n - 1);
      ReachStep(b, anchor, mid, h);
    }
  }
}
