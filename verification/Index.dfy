/** The verifiable index (internal/index): what its four trees hold, the combined root it
    anchors per round, and what a client may conclude from a proved answer.

    Object identifiers, keys and names are identified with the tree positions their hashes
    give, and a leaf with the record it encodes. */
module IndexModel {
  import opened Common
  import opened Merkle

  const HISTORY_WINDOW: nat := 1000

  datatype ParentLeaf = ParentLeaf(child: Position, keyRoot: bool, parent: Position)

  datatype DomainLeaf = DomainLeaf(objectId: Position, owner: Position, expiry: u64)

  /** A child leaf carries only its presence. */
  datatype Present = Present

  type Edges = map<Position, ParentLeaf>

  ghost predicate WellKeyed(edges: Edges)
  {
    forall c :: c in edges ==> edges[c].child == c
  }

  function ChildrenOf(edges: Edges, parent: Position): set<Position>
  {
    set c | c in edges && edges[c].parent == parent
  }

  function Parents(edges: Edges): set<Position>
  {
    set c | c in edges :: edges[c].parent
  }

  function PresentEntries(children: set<Position>): Entries<Present>
  {
    map c | c in children :: Present
  }

  /** Root of the subtree listing a parent's children. */
  ghost function SubtreeRoot(children: set<Position>): Digest<Present>
  {
    Root(PresentEntries(children))
  }

  /** One top-tree leaf per parent that has children. */
  ghost function TopEntries(edges: Edges): Entries<Digest<Present>>
  {
    map p | p in Parents(edges) :: SubtreeRoot(ChildrenOf(edges, p))
  }

  datatype Roots = Roots(
    domain: Digest<DomainLeaf>, parent: Digest<ParentLeaf>,
    children: Digest<Digest<Present>>, validator: Digest<nat>)

  /** What the trees hold. */
  datatype Trees = Trees(edges: Edges, domains: Entries<DomainLeaf>, validators: Entries<nat>)

  const NO_TREES: Trees := Trees(map[], map[], map[])

  ghost function RootsOf(t: Trees): Roots
  {
    Roots(Root(t.domains), Root(t.edges), Root(TopEntries(t.edges)), Root(t.validators))
  }

  // ---- Clients ----------------------------------------------------------------

  lemma SubtreeRootInjective(a: set<Position>, b: set<Position>)
    ensures SubtreeRoot(a) == SubtreeRoot(b) <==> a == b
  {
    RootCommitsToSet(PresentEntries(a), PresentEntries(b));
    assert PresentEntries(a).Keys == a && PresentEntries(b).Keys == b;
  }

  /** The combined root commits to everything the four trees hold. */
  lemma RootsCommitToTrees(t: Trees, u: Trees)
    ensures RootsOf(t) == RootsOf(u) <==> t == u
  {
    RootCommitsToSet(t.domains, u.domains);
    RootCommitsToSet(t.edges, u.edges);
    RootCommitsToSet(t.validators, u.validators);
  }

  /** The set a list spells, unless an element repeats. */
  method DistinctSet<T(==)>(xs: seq<T>) returns (listed: set<T>, ok: bool)
    ensures ok <==> forall i, j :: 0 <= i < j < |xs| ==> xs[i] != xs[j]
    ensures ok ==> (forall x :: x in listed <==> x in xs) && |listed| == |xs|
  {
    hide Once;
    listed := {};
    NoneYet(xs);
    for i := 0 to |xs|
      invariant listed == Elements(xs[..i]) && |listed| == i && Once(xs, i)
    {
      OneMore(xs, i);
      if xs[i] in listed { return {}, false; }
      listed := listed + {xs[i]};
    }
    assert xs[..|xs|] == xs;
    AllOnce(xs);
    ok := true;
  }

  /** The first `n` differ from each other. */
  predicate Once<T(==)>(xs: seq<T>, n: nat)
    requires n <= |xs|
  {
    forall i, j :: 0 <= i < j < n ==> xs[i] != xs[j]
  }

  lemma NoneYet<T>(xs: seq<T>)
    ensures Once(xs, 0) && Elements(xs[..0]) == {}
  {
  }

  lemma AllOnce<T>(xs: seq<T>)
    ensures Once(xs, |xs|) <==> forall i, j :: 0 <= i < j < |xs| ==> xs[i] != xs[j]
  {
  }

  lemma OneMore<T>(xs: seq<T>, i: nat)
    requires i < |xs| && Once(xs, i)
    ensures Elements(xs[..i + 1]) == Elements(xs[..i]) + {xs[i]}
    ensures xs[i] !in Elements(xs[..i]) ==> Once(xs, i + 1)
    ensures xs[i] in Elements(xs[..i]) ==> !forall j, k :: 0 <= j < k < |xs| ==> xs[j] != xs[k]
  {
    assert xs[..i + 1] == xs[..i] + [xs[i]];
    if xs[i] in Elements(xs[..i]) {
      var j :| 0 <= j < i && xs[..i][j] == xs[i];
      assert xs[j] == xs[i];
    } else {
      forall j | 0 <= j < i ensures xs[j] != xs[i] { assert xs[..i][j] == xs[j]; }
    }
  }

  /** A duplicate-free list whose rebuilt root is the proven one is exactly the parent's
      children; a proven absence means there are none. */
  lemma EnumerationIsComplete(edges: Edges, parent: Position, listed: Option<set<Position>>,
                              proof: Proof<Digest<Present>>)
    requires Accepts(Root(TopEntries(edges)), parent,
                     if listed.Some? then Some(SubtreeRoot(listed.value)) else None, proof)
    ensures listed.Some? ==> listed.value == ChildrenOf(edges, parent) != {}
    ensures listed.None? ==> ChildrenOf(edges, parent) == {}
  {
    var top := TopEntries(edges);
    var value := if listed.Some? then Some(SubtreeRoot(listed.value)) else None;
    ProofsAreSound(top, parent, value, proof);
    if listed.Some? {
      SubtreeRootInjective(listed.value, ChildrenOf(edges, parent));
      var c :| c in edges && edges[c].parent == parent;
      assert c in ChildrenOf(edges, parent);
    } else {
      assert forall c :: c in edges ==> edges[c].parent in Parents(edges);
    }
  }

  /** Every parent's enumeration has an accepted proof. */
  lemma EnumerationIsProvable(edges: Edges, parent: Position)
    ensures var children := ChildrenOf(edges, parent);
            Accepts(Root(TopEntries(edges)), parent,
                    if children == {} then None else Some(SubtreeRoot(children)), Prove(TopEntries(edges), parent))
  {
    ProofsAreComplete(TopEntries(edges), parent);
    var children := ChildrenOf(edges, parent);
    if children != {} {
      var c :| c in children;
      assert edges[c].parent in Parents(edges);
    } else {
      assert forall c :: c in edges && edges[c].parent == parent ==> c in children;
      assert parent !in Parents(edges);
    }
  }

  // ---- Ancestry walks -----------------------------------------------------------

  const WALK_LIMIT: nat := 256

  /** One hop as a client receives it; no value claims the object has no edge. */
  datatype Hop = Hop(child: Position, leaf: Option<ParentLeaf>, proof: Proof<ParentLeaf>)

  /** The chain a client returns for an object: each hop proved for the identifier the
      previous hop named, ending on a key root or on a proved absence. A walk that ends
      anywhere else, or is empty, is refused. */
  function VerifiedAncestry(root: Digest<ParentLeaf>, obj: Position, hops: seq<Hop>): Option<seq<ParentLeaf>>
    decreases |hops|
  {
    if hops == [] || hops[0].child != obj || !Accepts(root, obj, hops[0].leaf, hops[0].proof) then None
    else match hops[0].leaf
      case None => Some([])
      case Some(leaf) =>
        if leaf.child != obj then None
        else if leaf.keyRoot then Some([leaf])
        else Prepended(leaf, VerifiedAncestry(root, leaf.parent, hops[1..]))
  }

  function Prepended(leaf: ParentLeaf, rest: Option<seq<ParentLeaf>>): Option<seq<ParentLeaf>>
  {
    if rest.None? then None else Some([leaf] + rest.value)
  }

  /** The real chain up from an object, if it ends within `limit` hops. */
  function Ancestry(edges: Edges, obj: Position, limit: nat): Option<seq<ParentLeaf>>
    decreases limit
  {
    if limit == 0 then None
    else if obj !in edges then Some([])
    else if edges[obj].keyRoot then Some([edges[obj]])
    else Prepended(edges[obj], Ancestry(edges, edges[obj].parent, limit - 1))
  }

  /** Whatever walk is served: a chain the client returns is the object's whole real chain,
      with no hop invented, replaced or withheld. */
  lemma {:induction false} AncestryIsSound(edges: Edges, obj: Position, hops: seq<Hop>, limit: nat)
    requires VerifiedAncestry(Root(edges), obj, hops).Some? && limit >= |hops|
    ensures VerifiedAncestry(Root(edges), obj, hops) == Ancestry(edges, obj, limit)
    decreases |hops|
  {
    hide Accepts, Root;
    ProofsAreSound(edges, obj, hops[0].leaf, hops[0].proof);
    if hops[0].leaf.Some? && !hops[0].leaf.value.keyRoot {
      AncestryIsSound(edges, hops[0].leaf.value.parent, hops[1..], limit - 1);
    }
  }

  /** The hops a server collects, stopping at the first key root or absent edge. */
  ghost function ServedWalk(edges: Edges, obj: Position, limit: nat): seq<Hop>
    decreases limit
  {
    if limit == 0 then []
    else
      var hop := Hop(obj, Lookup(edges, obj), Prove(edges, obj));
      if obj !in edges || edges[obj].keyRoot then [hop] else [hop] + ServedWalk(edges, edges[obj].parent, limit - 1)
  }

  /** An honest answer is accepted exactly when the chain ends within the hop limit, and
      then yields the whole chain. */
  lemma {:induction false} AncestryIsProvable(edges: Edges, obj: Position, limit: nat)
    requires WellKeyed(edges)
    ensures VerifiedAncestry(Root(edges), obj, ServedWalk(edges, obj, limit)) == Ancestry(edges, obj, limit)
    decreases limit
  {
    hide Accepts, Root, Prove;
    if limit > 0 {
      ProofsAreComplete(edges, obj);
      if obj in edges && !edges[obj].keyRoot {
        AncestryIsProvable(edges, edges[obj].parent, limit - 1);
        assert ServedWalk(edges, obj, limit)[1..] == ServedWalk(edges, edges[obj].parent, limit - 1);
      }
    }
  }

  /** VerifyAncestry as the client runs it. */
  method VerifyAncestry(root: Digest<ParentLeaf>, obj: Position, hops: seq<Hop>)
    returns (chain: Option<seq<ParentLeaf>>)
    ensures chain == VerifiedAncestry(root, obj, hops)
  {
    hide Accepts;
    var found: seq<ParentLeaf> := [];
    var expected := obj;
    AppendedNothing(VerifiedAncestry(root, obj, hops));
    for i := 0 to |hops|
      invariant VerifiedAncestry(root, obj, hops) == Appended(found, VerifiedAncestry(root, expected, hops[i..]))
    {
      var hop := hops[i];
      assert hops[i..][0] == hop && hops[i..][1..] == hops[i + 1..];
      if hop.child != expected { return None; }
      var ok := Verify(root, expected, hop.leaf, hop.proof);
      if !ok { return None; }
      if hop.leaf.None? {
        assert found + [] == found;
        return Some(found);
      }
      if hop.leaf.value.child != hop.child { return None; }
      AppendedMore(found, hop.leaf.value, VerifiedAncestry(root, hop.leaf.value.parent, hops[i + 1..]));
      found := found + [hop.leaf.value];
      expected := hop.leaf.value.parent;
      if hop.leaf.value.keyRoot { return Some(found); }
    }
    return None;
  }

  function Appended(found: seq<ParentLeaf>, rest: Option<seq<ParentLeaf>>): Option<seq<ParentLeaf>>
  {
    if rest.None? then None else Some(found + rest.value)
  }

  lemma AppendedNothing(rest: Option<seq<ParentLeaf>>)
    ensures Appended([], rest) == rest
  {
    if rest.Some? { assert [] + rest.value == rest.value; }
  }

  lemma AppendedMore(found: seq<ParentLeaf>, leaf: ParentLeaf, rest: Option<seq<ParentLeaf>>)
    ensures Appended(found, Prepended(leaf, rest)) == Appended(found + [leaf], rest)
  {
    if rest.Some? { assert found + ([leaf] + rest.value) == found + [leaf] + rest.value; }
  }

  // ---- Root history --------------------------------------------------------------

  /** The retained roots: a bounded first-in-first-out window, one checkpoint per
      validator rebuild, and the last recorded pair. */
  datatype History<+R> = History(
    recorded: map<nat, R>, order: seq<nat>, checkpoints: map<nat, R>, pending: bool,
    frontier: Option<(nat, R)>)

  function Evict<R>(recorded: map<nat, R>, order: seq<nat>): (r: (map<nat, R>, seq<nat>))
    decreases |order|
  {
    if |order| > HISTORY_WINDOW then Evict(recorded - {order[0]}, order[1..]) else (recorded, order)
  }

  /** Record the current roots for a round; a round that does not advance is ignored. */
  function Record<R>(h: History<R>, round: nat, roots: R): History<R>
  {
    if |h.order| > 0 && round <= h.order[|h.order| - 1] then h
    else
      var (recorded, order) := Evict(h.recorded[round := roots], h.order + [round]);
      History(recorded, order,
              if h.pending then h.checkpoints[round := roots] else h.checkpoints,
              false, Some((round, roots)))
  }

  function RootAt<R>(h: History<R>, round: nat): Option<R>
  {
    if round in h.checkpoints then Some(h.checkpoints[round])
    else if round in h.recorded then Some(h.recorded[round])
    else None
  }

  ghost predicate Ordered(order: seq<nat>)
  {
    forall i, j :: 0 <= i < j < |order| ==> order[i] < order[j]
  }

  /** The window lists its rounds in order, at most HISTORY_WINDOW of them, the last being
      the frontier; a checkpoint agrees with the window where both hold a round. */
  ghost predicate Consistent<R>(h: History<R>)
  {
    && Window(h.recorded, h.order) && |h.order| <= HISTORY_WINDOW
    && (forall r :: r in h.checkpoints && r in h.recorded ==> h.checkpoints[r] == h.recorded[r])
    && (h.order == [] ==> h.checkpoints == map[] && h.frontier.None?)
    && (h.order != [] ==> FrontierIsLast(h))
  }

  ghost predicate FrontierIsLast<R>(h: History<R>)
    requires h.order != []
  {
    var last := h.order[|h.order| - 1];
    && last in h.recorded && h.frontier == Some((last, h.recorded[last]))
    && forall r :: r in h.checkpoints ==> r <= last
  }

  /** Whether recording a round advances the window. */
  predicate Advances<R>(h: History<R>, round: nat)
  {
    |h.order| == 0 || round > h.order[|h.order| - 1]
  }

  /** Eviction of an over-full window by one drops exactly its oldest round. */
  lemma EvictOne<R>(recorded: map<nat, R>, order: seq<nat>)
    requires |order| <= HISTORY_WINDOW + 1
    ensures Evict(recorded, order) ==
              if |order| > HISTORY_WINDOW then (recorded - {order[0]}, order[1..]) else (recorded, order)
  {
  }

  lemma OrderedAppend(order: seq<nat>, round: nat)
    requires Ordered(order) && (order == [] || round > order[|order| - 1])
    ensures Ordered(order + [round]) && forall r :: r in order ==> r < round
    ensures forall r :: r in order + [round] <==> r in order || r == round
  {
    assert forall i :: 0 <= i < |order| ==> order[i] < round;
  }

  lemma OrderedTail(order: seq<nat>)
    requires Ordered(order) && |order| > 0
    ensures Ordered(order[1..]) && forall r :: r in order[1..] <==> r in order && r != order[0]
  {
    var tail := order[1..];
    assert forall i :: 0 <= i < |tail| ==> tail[i] == order[i + 1] && order[0] < tail[i];
    forall r | r in order && r != order[0] ensures r in tail {
      var i :| 0 <= i < |order| && order[i] == r;
      assert tail[i - 1] == r;
    }
  }

  /** A window table with one round appended. */
  ghost predicate Window<R>(recorded: map<nat, R>, order: seq<nat>)
  {
    Ordered(order) && forall r :: r in recorded <==> r in order
  }

  /** `after` is `before` with one round recorded, and possibly an older one dropped. */
  ghost predicate Extends<R>(before: map<nat, R>, after: map<nat, R>, round: nat, roots: R)
  {
    && round in after && after[round] == roots
    && forall r :: r in after && r != round ==> r in before && after[r] == before[r]
  }

  lemma WindowAppend<R>(recorded: map<nat, R>, order: seq<nat>, round: nat, roots: R)
    requires Window(recorded, order) && (order == [] || round > order[|order| - 1])
    ensures Window(recorded[round := roots], order + [round])
    ensures forall r :: r in recorded ==> r < round
  {
    OrderedAppend(order, round);
    hide Ordered;
  }

  lemma WindowEvict<R>(recorded: map<nat, R>, order: seq<nat>)
    requires Window(recorded, order) && |order| > 1
    ensures Window(recorded - {order[0]}, order[1..]) && order[0] < order[|order| - 1]
  {
    OrderedTail(order);
  }

  /** What recording an advancing round leaves in the window. */
  lemma RecordAdvances<R>(h: History<R>, round: nat, roots: R)
    requires Consistent(h) && Advances(h, round)
    ensures var h' := Record(h, round, roots);
            && Window(h'.recorded, h'.order) && |h'.order| <= HISTORY_WINDOW
            && h'.order != [] && h'.order[|h'.order| - 1] == round
            && Extends(h.recorded, h'.recorded, round, roots)
    ensures forall r :: r in h.recorded || r in h.checkpoints ==> r < round
  {
    hide Evict, Window;
    RecordedWindow(h.recorded, h.order, round, roots);
  }

  lemma RecordedWindow<R>(recorded: map<nat, R>, order: seq<nat>, round: nat, roots: R)
    requires Window(recorded, order) && |order| <= HISTORY_WINDOW && (order == [] || round > order[|order| - 1])
    ensures var (recorded', order') := Evict(recorded[round := roots], order + [round]);
            && Window(recorded', order') && |order'| <= HISTORY_WINDOW
            && order' != [] && order'[|order'| - 1] == round
            && Extends(recorded, recorded', round, roots)
    ensures forall r :: r in recorded ==> r < round
  {
    hide Window, Evict;
    EvictOne(recorded[round := roots], order + [round]);
    WindowAppend(recorded, order, round, roots);
    if |order| == HISTORY_WINDOW {
      WindowEvict(recorded[round := roots], order + [round]);
    }
  }

  lemma RecordKeepsConsistent<R>(h: History<R>, round: nat, roots: R)
    requires Consistent(h)
    ensures Consistent(Record(h, round, roots))
  {
    hide Window, Evict;
    if Advances(h, round) {
      RecordAdvances(h, round, roots);
    }
  }

  /** A retained root never changes: recording another round keeps it or drops it, and
      the pair recorded is the one later read back. */
  lemma RetainedRootsAreFinal<R>(h: History<R>, round: nat, roots: R, r: nat)
    requires Consistent(h)
    ensures var h' := Record(h, round, roots);
            && (RootAt(h, r).Some? && RootAt(h', r).Some? ==> RootAt(h', r) == RootAt(h, r))
            && (r in h.checkpoints ==> RootAt(h', r) == RootAt(h, r))
            && (Advances(h, round) ==> RootAt(h', round) == Some(roots))
  {
    hide Window, Evict;
    if Advances(h, round) {
      RecordAdvances(h, round, roots);
    }
  }

  /** The last thousand rounds recorded are kept: recording another drops none while fewer are
      held and only the oldest otherwise. The round after a validator rebuild is a checkpoint. */
  lemma WindowIsKept<R>(h: History<R>, round: nat, roots: R)
    requires Consistent(h) && Advances(h, round)
    ensures var h' := Record(h, round, roots);
            && h'.order == (if |h.order| < 1000 then h.order else h.order[1..]) + [round]
            && (forall r :: r in h'.order ==> r in h'.recorded)
            && (h.pending ==> round in h'.checkpoints) && !h'.pending
            && (!h.pending ==> h'.checkpoints == h.checkpoints)
  {
    hide Window, Consistent;
    ConsistentWindow(h);
    RecordAdvances(h, round, roots);
    EvictOne(h.recorded[round := roots], h.order + [round]);
    assert |h.order| == 1000 ==> (h.order + [round])[1..] == h.order[1..] + [round];
    WindowMeans(Record(h, round, roots).recorded, Record(h, round, roots).order);
  }

  lemma ConsistentWindow<R>(h: History<R>)
    requires Consistent(h)
    ensures |h.order| <= 1000
  {
  }

  lemma WindowMeans<R>(recorded: map<nat, R>, order: seq<nat>)
    requires Window(recorded, order)
    ensures forall r :: r in order ==> r in recorded
  {
  }

  /** Two histories that agree on the rounds both still hold above some round. */
  ghost predicate AgreeAbove<R>(a: History<R>, b: History<R>, above: int)
  {
    forall r: nat :: r > above && RootAt(a, r).Some? && RootAt(b, r).Some? ==> RootAt(a, r) == RootAt(b, r)
  }

  /** A manager rebuilt at round `above` keeps agreeing with the original on every later
      round both retain, whatever either retained before. */
  lemma RebuiltHistoryAgrees<R>(a: History<R>, b: History<R>, above: int, round: nat, roots: R)
    requires Consistent(a) && Consistent(b) && AgreeAbove(a, b, above)
    requires Advances(a, round) <==> Advances(b, round)
    ensures AgreeAbove(Record(a, round, roots), Record(b, round, roots), above)
  {
    hide Window, Evict;
    var a', b' := Record(a, round, roots), Record(b, round, roots);
    if Advances(a, round) {
      RecordAdvances(a, round, roots);
      RecordAdvances(b, round, roots);
      forall r: nat | r > above && RootAt(a', r).Some? && RootAt(b', r).Some? ensures RootAt(a', r) == RootAt(b', r) {
        RetainedRootsAreFinal(a, round, roots, r);
        RetainedRootsAreFinal(b, round, roots, r);
      }
    }
  }

  // ---- Edit streams ----------------------------------------------------------------

  /** One call of the commit path into the index. */
  datatype Event =
    | ApplyEdge(child: Position, keyRoot: bool, parent: Position)
    | RemoveObject(child: Position)
    | ApplyDomain(name: Position, leaf: DomainLeaf)
    | RemoveDomain(name: Position)
    | RebuildValidators(validators: Entries<nat>)
    | SetFrontier(round: nat)

  datatype Manager = Manager(trees: Trees, history: History<Roots>)

  ghost function Handle(m: Manager, e: Event): Manager
  {
    var t := m.trees;
    match e
    case ApplyEdge(c, k, p) => m.(trees := t.(edges := t.edges[c := ParentLeaf(c, k, p)]))
    case RemoveObject(c) => m.(trees := t.(edges := t.edges - {c}))
    case ApplyDomain(n, leaf) => m.(trees := t.(domains := t.domains[n := leaf]))
    case RemoveDomain(n) => m.(trees := t.(domains := t.domains - {n}))
    case RebuildValidators(vs) => Manager(t.(validators := vs), m.history.(pending := true))
    case SetFrontier(round) => m.(history := Record(m.history, round, RootsOf(t)))
  }

  /** A call moves one child from wherever it was to where it belongs, writes or removes one
      name, or replaces the validators, and leaves every other answer as it was. */
  lemma EventEffects(m: Manager, e: Event, q: Position)
    ensures var t, t' := m.trees, Handle(m, e).trees;
            && (e.ApplyEdge? ==>
                  && ChildrenOf(t'.edges, q)
                     == (if q == e.parent then ChildrenOf(t.edges, q) + {e.child}
                         else ChildrenOf(t.edges, q) - {e.child})
                  && e.child in t'.edges && t'.edges[e.child].keyRoot == e.keyRoot)
            && (e.RemoveObject? ==> ChildrenOf(t'.edges, q) == ChildrenOf(t.edges, q) - {e.child})
            && (e.ApplyDomain? ==>
                  Lookup(t'.domains, q) == if q == e.name then Some(e.leaf) else Lookup(t.domains, q))
            && (e.RemoveDomain? ==> Lookup(t'.domains, q) == if q == e.name then None else Lookup(t.domains, q))
            && t'.validators == (if e.RebuildValidators? then e.validators else t.validators)
            && (!e.ApplyEdge? && !e.RemoveObject? ==> t'.edges == t.edges)
            && (!e.ApplyDomain? && !e.RemoveDomain? ==> t'.domains == t.domains)
  {
    hide Record, RootsOf;
  }

  ghost function HandleAll(m: Manager, es: seq<Event>): Manager
  {
    if es == [] then m else Handle(HandleAll(m, es[..|es| - 1]), es[|es| - 1])
  }

  /** Both have recorded, and last recorded the same pair. */
  ghost predicate SameFrontier<R>(a: History<R>, b: History<R>)
  {
    a.frontier.Some? && a.frontier == b.frontier
  }

  /** A restarted manager rebuilt from state at the last decided round, and the one that
      never restarted, fed the same calls: same trees, same frontier, and the same root
      for every later round both retain. */
  lemma {:induction false} RestartedManagerAgrees(live: Manager, rebuilt: Manager, above: int, es: seq<Event>)
    requires live.trees == rebuilt.trees && Consistent(live.history) && Consistent(rebuilt.history)
    requires SameFrontier(live.history, rebuilt.history) && AgreeAbove(live.history, rebuilt.history, above)
    ensures var a, b := HandleAll(live, es), HandleAll(rebuilt, es);
            && a.trees == b.trees && Consistent(a.history) && Consistent(b.history)
            && SameFrontier(a.history, b.history) && AgreeAbove(a.history, b.history, above)
  {
    hide Consistent, Record, RootAt, RootsOf;
    if es != [] {
      var before, e := es[..|es| - 1], es[|es| - 1];
      RestartedManagerAgrees(live, rebuilt, above, before);
      var a, b := HandleAll(live, before), HandleAll(rebuilt, before);
      match e {
        case SetFrontier(round) =>
          var roots := RootsOf(a.trees);
          RecordKeepsConsistent(a.history, round, roots);
          RecordKeepsConsistent(b.history, round, roots);
          FrontierAfterRecord(a.history, b.history, round, roots);
          RebuiltHistoryAgrees(a.history, b.history, above, round, roots);
        case RebuildValidators(vs) =>
          PendingIsInvisible(a.history);
          PendingIsInvisible(b.history);
        case _ =>
      }
    }
  }

  /** A manager that has recorded nothing, over given trees. */
  function Fresh(trees: Trees): Manager
  {
    Manager(trees, History(map[], [], map[], false, None))
  }

  lemma {:induction false} ReachableIsConsistent(trees: Trees, es: seq<Event>)
    ensures Consistent(HandleAll(Fresh(trees), es).history)
  {
    hide Consistent, Handle;
    if es == [] {
      FreshIsConsistent(trees);
    } else {
      var before := es[..|es| - 1];
      ReachableIsConsistent(trees, before);
      HandleKeepsConsistent(HandleAll(Fresh(trees), before), es[|es| - 1]);
    }
  }

  lemma FreshIsConsistent(trees: Trees)
    ensures Consistent(Fresh(trees).history)
  {
  }

  lemma HandleKeepsConsistent(m: Manager, e: Event)
    requires Consistent(m.history)
    ensures Consistent(Handle(m, e).history)
  {
    hide Consistent, Record, RootsOf;
    if e.SetFrontier? { RecordKeepsConsistent(m.history, e.round, RootsOf(m.trees)); }
    if e.RebuildValidators? { PendingIsInvisible(m.history); }
  }

  /** backfillIndex: a node that restarts after deciding `round` rebuilds its trees from the
      persisted state and records that round once. From there on it cannot be told from a
      node that never restarted: same trees, same frontier, and the same root for every
      round both retain. */
  lemma BootedManagerAgrees(prior: seq<Event>, round: nat, es: seq<Event>)
    requires Advances(HandleAll(Fresh(NO_TREES), prior).history, round)
    ensures var live := HandleAll(Fresh(NO_TREES), prior + [SetFrontier(round)]);
            var a, b := HandleAll(live, es), HandleAll(Handle(Fresh(live.trees), SetFrontier(round)), es);
            && a.trees == b.trees && SameFrontier(a.history, b.history) && AgreeAbove(a.history, b.history, -1)
  {
    var before := HandleAll(Fresh(NO_TREES), prior);
    assert (prior + [SetFrontier(round)])[..|prior|] == prior;
    var live := Handle(before, SetFrontier(round));
    ReachableIsConsistent(NO_TREES, prior);
    ReachableIsConsistent(before.trees, []);
    FreshlyRecorded(before.history, Fresh(before.trees).history, round, RootsOf(before.trees));
    hide *;
    RestartedManagerAgrees(live, Handle(Fresh(live.trees), SetFrontier(round)), -1, es);
  }

  lemma FreshlyRecorded<R>(h: History<R>, blank: History<R>, round: nat, roots: R)
    requires Consistent(h) && Advances(h, round) && Consistent(blank) && blank.order == []
    ensures var a, b := Record(h, round, roots), Record(blank, round, roots);
            Consistent(a) && Consistent(b) && SameFrontier(a, b) && AgreeAbove(a, b, -1)
  {
    hide Window, Evict;
    RecordKeepsConsistent(h, round, roots);
    RecordKeepsConsistent(blank, round, roots);
    RecordAdvances(h, round, roots);
    RecordAdvances(blank, round, roots);
    RetainedRootsAreFinal(h, round, roots, round);
    RetainedRootsAreFinal(blank, round, roots, round);
    OnlyRecorded(blank, round, roots);
  }

  lemma OnlyRecorded<R>(blank: History<R>, round: nat, roots: R)
    requires Consistent(blank) && blank.order == []
    ensures forall r: nat :: RootAt(Record(blank, round, roots), r).Some? ==> r == round
  {
    hide Evict;
    RecordAdvances(blank, round, roots);
    assert blank.recorded == map[];
  }

  lemma FrontierAfterRecord<R>(a: History<R>, b: History<R>, round: nat, roots: R)
    requires Consistent(a) && Consistent(b) && SameFrontier(a, b)
    ensures Advances(a, round) <==> Advances(b, round)
    ensures SameFrontier(Record(a, round, roots), Record(b, round, roots))
  {
    hide Window, Evict;
  }

  lemma PendingIsInvisible<R>(h: History<R>)
    requires Consistent(h)
    ensures Consistent(h.(pending := true)) && forall r :: RootAt(h.(pending := true), r) == RootAt(h, r)
  {
  }
}
