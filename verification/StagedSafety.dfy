/** The overlay is a faithful rehearsal: what validates is exactly what applies. */
module StagedSafety {
  import opened Common
  import opened Objects
  import opened Domains
  import opened Staged

  // ---- The overlay's own arithmetic ------------------------------------------------

  ghost predicate Small(delta: map<Hash, int>, n: nat)
  {
    forall q :: 0 - n <= DeltaOf(delta, q) <= n
  }

  lemma NudgeDelta(delta: map<Hash, int>, parent: Ref, step: int, q: Hash)
    requires -HALF32 <= DeltaOf(delta, q) + step < HALF32 && -HALF32 <= DeltaOf(delta, q) < HALF32
    ensures DeltaOf(Nudge(delta, parent, step), q) == DeltaOf(delta, q) + if parent == Obj(q) then step else 0
  {
    var x := DeltaOf(delta, q) + step;
    assert (x + HALF32) % U32 == x + HALF32;
  }

  lemma ReparentDelta(w: World, o: Overlay, id: Hash, parent: Ref, n: nat)
    requires id in StagedEdges(w, o) && Small(o.delta, n) && n + 1 < HALF32
    ensures Small(StageReparent(w, o, id, parent).delta, n + 1)
    ensures forall q :: DeltaOf(StageReparent(w, o, id, parent).delta, q) ==
                          DeltaOf(o.delta, q) + Gain(Some(StagedEdges(w, o)[id]), Some(parent), q)
  {
    var was := StagedEdges(w, o)[id];
    var less := Nudge(o.delta, was, -1);
    hide Nudge, DeltaOf, Int32, StagedEdges;
    forall q ensures DeltaOf(Nudge(less, parent, 1), q) == DeltaOf(o.delta, q) + Gain(Some(was), Some(parent), q) {
      NudgeDelta(o.delta, was, -1, q);
      NudgeDelta(less, parent, 1, q);
    }
  }

  lemma DeleteDelta(w: World, o: Overlay, id: Hash, n: nat)
    requires id in StagedEdges(w, o) && Small(o.delta, n) && n + 1 < HALF32
    ensures Small(StageDelete(w, o, id).delta, n + 1)
    ensures forall q :: DeltaOf(StageDelete(w, o, id).delta, q) ==
                          DeltaOf(o.delta, q) + Gain(Some(StagedEdges(w, o)[id]), None, q)
  {
    var was := StagedEdges(w, o)[id];
    hide Nudge, DeltaOf, Int32, StagedEdges;
    forall q ensures DeltaOf(Nudge(o.delta, was, -1), q) == DeltaOf(o.delta, q) + Gain(Some(was), None, q) {
      NudgeDelta(o.delta, was, -1, q);
    }
  }

  lemma ReparentEdges(w: World, o: Overlay, id: Hash, parent: Ref)
    requires id in StagedEdges(w, o)
    ensures StagedEdges(w, StageReparent(w, o, id, parent)) == StagedEdges(w, o)[id := parent]
  {
  }

  lemma DeleteEdges(w: World, o: Overlay, id: Hash)
    ensures StagedEdges(w, StageDelete(w, o, id)) == StagedEdges(w, o) - {id}
  {
  }

  lemma LeafStaged(w: World, o: Overlay, name: string, leaf: Leaf)
    ensures StagedLeaves(w, StageLeaf(o, name, leaf)) == StagedLeaves(w, o)[name := leaf]
    ensures StagedLeaves(w, StageDrop(o, name)) == StagedLeaves(w, o) - {name}
  {
  }

  // ---- Overlay and real state in step ------------------------------------------------

  /** The staged count of every staged object is its true number of staged children. */
  ghost predicate Balanced(w: World, o: Overlay)
  {
    forall q :: q in StagedEdges(w, o) ==>
      Get(w.tracked, q).children + DeltaOf(o.delta, q) == |ChildrenOf(StagedEdges(w, o), q)|
  }

  /** Operations change parents and counts, never versions, replication or deposits. */
  ghost predicate Kept(before: Tracked, after: Tracked)
  {
    forall id :: id in after ==>
      id in before && after[id] == before[id].(parent := after[id].parent, children := after[id].children)
  }

  /** `live` is what the overlay `o` over `w` promises, after `n` operations. */
  ghost predicate Rehearsed(w: World, o: Overlay, live: World, n: nat)
  {
    && EdgesOf(live.tracked) == StagedEdges(w, o)
    && live.registry == StagedLeaves(w, o)
    && Forest(live.tracked) && |live.tracked| < U32
    && Balanced(w, o) && Small(o.delta, n)
    && Kept(w.tracked, live.tracked)
  }

  /** The rehearsed count is the stored one. */
  lemma CountIsRehearsed(w: World, o: Overlay, live: World, n: nat, id: Hash)
    requires Rehearsed(w, o, live, n) && id in live.tracked
    ensures StagedCount(w, o, id) == live.tracked[id].children
  {
    hide StagedEdges, ChildrenOf, Forest, Kept, Small;
    assert id in EdgesOf(live.tracked);
    ForestCounts(live.tracked, id);
    SmallCount(|ChildrenOf(StagedEdges(w, o), id)|);
  }

  lemma ForestCounts(t: Tracked, id: Hash)
    requires Forest(t) && |t| < U32 && id in t
    ensures t[id].children == |ChildrenOf(EdgesOf(t), id)| < U32
  {
    ZeroCountIsChildless(t, id);
  }

  lemma Start(w: World)
    requires Forest(w.tracked) && |w.tracked| < U32
    ensures Rehearsed(w, EMPTY, w, 0)
  {
    hide ChildrenOf, Forest, Kept, EdgesOf, StagedEdges, StagedLeaves;
    EmptyOverlay(w);
    CountsAreExact(w.tracked);
    StartBalanced(w);
    KeptItself(w.tracked);
  }

  lemma EmptyOverlay(w: World)
    ensures StagedEdges(w, EMPTY) == EdgesOf(w.tracked) && StagedLeaves(w, EMPTY) == w.registry
  {
  }

  lemma StartBalanced(w: World)
    requires StagedEdges(w, EMPTY) == EdgesOf(w.tracked)
    requires forall id :: id in w.tracked ==> w.tracked[id].children == |ChildrenOf(EdgesOf(w.tracked), id)|
    ensures Balanced(w, EMPTY)
  {
    hide ChildrenOf, StagedEdges;
  }

  lemma KeptItself(t: Tracked)
    ensures Kept(t, t)
  {
  }

  lemma ControlledIsTracked(edges: Edges, sender: Hash, id: Hash)
    requires Controls(edges, sender, id)
    ensures id in edges && Rules(edges, sender, id)
  {
  }

  lemma SetParentKept(before: Tracked, t: Tracked, id: Hash, parent: Ref)
    requires Kept(before, t) && id in t
    ensures Kept(before, SetParent(t, id, parent)) && SetParent(t, id, parent).Keys == t.Keys
  {
    var base := t[id := t[id].(parent := parent)];
    var after := SetParent(t, id, parent);
    SetParentEffect(t, id, parent);
    hide Rebind, EdgesOf, Gain;
    forall q | q in after
      ensures q in before && after[q] == before[q].(parent := after[q].parent, children := after[q].children) {
      RebindCounts(base, ParentOf(t, id), parent, q);
    }
  }

  lemma DeleteKept(before: Tracked, t: Tracked, id: Hash)
    requires Kept(before, t) && id in t
    ensures Kept(before, Objects.Delete(t, id)) && Objects.Delete(t, id).Keys == t.Keys - {id}
  {
    DeleteEffect(t, id);
    AdjustEdges(t - {id}, t[id].parent, -1);
    hide Adjust, EdgesOf;
  }

  lemma BalancedAfterReparent(w: World, o: Overlay, id: Hash, parent: Ref, n: nat)
    requires Balanced(w, o) && id in StagedEdges(w, o) && Small(o.delta, n) && n + 1 < HALF32
    ensures Balanced(w, StageReparent(w, o, id, parent))
  {
    var edges, o' := StagedEdges(w, o), StageReparent(w, o, id, parent);
    ReparentEdges(w, o, id, parent);
    ReparentDelta(w, o, id, parent, n);
    hide StageReparent, StagedEdges, ChildrenOf, DeltaOf, Gain, Small;
    forall q | q in StagedEdges(w, o')
      ensures Get(w.tracked, q).children + DeltaOf(o'.delta, q) == |ChildrenOf(StagedEdges(w, o'), q)| {
      assert q in edges;
      ChildrenAfterMove(edges, id, parent, q);
    }
  }

  lemma BalancedAfterDelete(w: World, o: Overlay, id: Hash, n: nat)
    requires Balanced(w, o) && id in StagedEdges(w, o) && Small(o.delta, n) && n + 1 < HALF32
    ensures Balanced(w, StageDelete(w, o, id))
  {
    var edges, o' := StagedEdges(w, o), StageDelete(w, o, id);
    DeleteEdges(w, o, id);
    DeleteDelta(w, o, id, n);
    hide StageDelete, StagedEdges, ChildrenOf, DeltaOf, Gain, Small;
    forall q | q in StagedEdges(w, o')
      ensures Get(w.tracked, q).children + DeltaOf(o'.delta, q) == |ChildrenOf(StagedEdges(w, o'), q)| {
      assert q in edges;
      ChildrenAfterRemove(edges, id, q);
    }
  }

  lemma ReparentRehearsed(w: World, o: Overlay, live: World, n: nat, id: Hash, parent: Ref)
    requires Rehearsed(w, o, live, n) && n + 1 < HALF32
    requires id in live.tracked && !WouldCycle(StagedEdges(w, o), id, parent)
    ensures Rehearsed(w, StageReparent(w, o, id, parent), live.(tracked := SetParent(live.tracked, id, parent)), n + 1)
  {
    hide ChildrenOf, WouldCycle, Rooted, Counted, Gain, SetParent, Balanced, Small;
    assert id in EdgesOf(live.tracked);
    ChangeKeepsForest(live.tracked, Change.Reparent(id, parent));
    SetParentEffect(live.tracked, id, parent);
    SetParentKept(w.tracked, live.tracked, id, parent);
    ReparentEdges(w, o, id, parent);
    ReparentDelta(w, o, id, parent, n);
    BalancedAfterReparent(w, o, id, parent, n);
    SameSize(live.tracked, SetParent(live.tracked, id, parent));
    assert StagedLeaves(w, StageReparent(w, o, id, parent)) == StagedLeaves(w, o);
    hide *;
  }

  lemma SameSize(a: Tracked, b: Tracked)
    requires b.Keys <= a.Keys
    ensures |b| <= |a|
  {
    SubsetSize(b.Keys, a.Keys);
    assert |a.Keys| == |a| && |b.Keys| == |b|;
  }

  lemma DeleteRehearsed(w: World, o: Overlay, live: World, n: nat, id: Hash)
    requires Rehearsed(w, o, live, n) && n + 1 < HALF32
    requires id in live.tracked && live.tracked[id].children == 0
    ensures Rehearsed(w, StageDelete(w, o, id), live.(tracked := Objects.Delete(live.tracked, id)), n + 1)
  {
    hide ChildrenOf, Rooted, Counted, Gain, Objects.Delete, Balanced, Small;
    assert id in EdgesOf(live.tracked);
    ChangeKeepsForest(live.tracked, Change.Remove(id));
    DeleteEffect(live.tracked, id);
    DeleteKept(w.tracked, live.tracked, id);
    DeleteEdges(w, o, id);
    DeleteDelta(w, o, id, n);
    BalancedAfterDelete(w, o, id, n);
    SameSize(live.tracked, Objects.Delete(live.tracked, id));
    assert StagedLeaves(w, StageDelete(w, o, id)) == StagedLeaves(w, o);
    hide *;
  }

  /** A leaf that validates is the leaf application re-derives from the store. */
  lemma LeafIsRederived(w: World, o: Overlay, t: Terms, op: Op)
    requires NewLeaf(w, o, t, op).Some?
    ensures WrittenLeaf(StagedLeaves(w, o), t, op) == NewLeaf(w, o, t, op)
  {
    hide StagedLeaves, StagedEdges, Controls, ValidName, OwnsNamespace, DomainExpiry;
  }

  lemma DomainStep(w: World, o: Overlay, live: World, t: Terms, op: Op)
    requires live.registry == StagedLeaves(w, o) && REGISTER <= op.kind <= DROP
    requires ValidateDomain(w, o, t, op).Some?
    ensures ApplyOp(live, t, op).Some?
    ensures var o', live' := ValidateDomain(w, o, t, op).value, ApplyOp(live, t, op).value;
            && live'.tracked == live.tracked && live'.registry == StagedLeaves(w, o')
            && o'.parents == o.parents && o'.deleted == o.deleted && o'.delta == o.delta
  {
    hide StagedLeaves, NewLeaf, WrittenLeaf;
    if op.kind == DROP {
      LeafStaged(w, o, op.name, Leaf(ZERO_HASH, ZERO_HASH, 0));
    } else {
      LeafIsRederived(w, o, t, op);
      LeafStaged(w, o, op.name, NewLeaf(w, o, t, op).value);
    }
  }

  lemma DomainRehearsed(w: World, o: Overlay, live: World, n: nat, t: Terms, op: Op)
    requires Rehearsed(w, o, live, n) && REGISTER <= op.kind <= DROP
    requires ValidateDomain(w, o, t, op).Some?
    ensures ApplyOp(live, t, op).Some?
    ensures Rehearsed(w, ValidateDomain(w, o, t, op).value, ApplyOp(live, t, op).value, n + 1)
  {
    hide ValidateDomain, ApplyOp, StagedLeaves, EdgesOf, Forest, Balanced, Small, Kept;
    DomainStep(w, o, live, t, op);
    BalancedDependsOn(w, o, ValidateDomain(w, o, t, op).value, n);
  }

  lemma BalancedDependsOn(w: World, o: Overlay, o': Overlay, n: nat)
    requires StagedEdges(w, o') == StagedEdges(w, o) && o'.delta == o.delta
    requires Balanced(w, o) && Small(o.delta, n)
    ensures Balanced(w, o') && Small(o'.delta, n + 1)
  {
  }

  lemma ReparentStep(w: World, o: Overlay, live: World, n: nat, t: Terms, op: Op)
    requires Rehearsed(w, o, live, n) && n + 1 < HALF32
    requires op.kind == REPARENT && ValidateReparent(w, o, t, op).Some?
    ensures ApplyOp(live, t, op).Some?
    ensures Rehearsed(w, ValidateReparent(w, o, t, op).value, ApplyOp(live, t, op).value, n + 1)
  {
    hide Rehearsed, StageReparent, SetParent, StagedEdges, WouldCycle, Controls, WrittenLeaf;
    StagedIsTracked(w, o, live, n, t.sender, op.objectId.value);
    ReparentRehearsed(w, o, live, n, op.objectId.value, TargetOf(op).value);
  }

  lemma DeleteStep(w: World, o: Overlay, live: World, n: nat, t: Terms, op: Op)
    requires Rehearsed(w, o, live, n) && n + 1 < HALF32
    requires op.kind == DELETE && ValidateDelete(w, o, t, op).Some?
    ensures ApplyOp(live, t, op).Some?
    ensures Rehearsed(w, ValidateDelete(w, o, t, op).value, ApplyOp(live, t, op).value, n + 1)
  {
    hide Rehearsed, StageDelete, Objects.Delete, StagedEdges, Controls, StagedCount, WrittenLeaf;
    StagedIsTracked(w, o, live, n, t.sender, op.objectId.value);
    CountIsRehearsed(w, o, live, n, op.objectId.value);
    DeleteRehearsed(w, o, live, n, op.objectId.value);
  }

  /** One operation: validation succeeding means application does exactly that. */
  lemma StepRehearsed(w: World, o: Overlay, live: World, n: nat, t: Terms, op: Op)
    requires Rehearsed(w, o, live, n) && n + 1 < HALF32
    requires ValidateOp(w, o, t, op).Some?
    ensures ApplyOp(live, t, op).Some?
    ensures Rehearsed(w, ValidateOp(w, o, t, op).value, ApplyOp(live, t, op).value, n + 1)
  {
    hide Rehearsed, ApplyOp, ValidateReparent, ValidateDelete, ValidateDomain;
    if op.kind == REPARENT {
      ReparentStep(w, o, live, n, t, op);
    } else if op.kind == DELETE {
      DeleteStep(w, o, live, n, t, op);
    } else {
      DomainRehearsed(w, o, live, n, t, op);
    }
  }

  lemma StagedIsTracked(w: World, o: Overlay, live: World, n: nat, sender: Hash, id: Hash)
    requires Rehearsed(w, o, live, n) && Controls(StagedEdges(w, o), sender, id)
    ensures id in live.tracked
  {
    ControlledIsTracked(StagedEdges(w, o), sender, id);
    assert id in EdgesOf(live.tracked);
  }

  /** A list that validates applies without a single failing step, and ends in exactly
      the edges, counts and leaves its overlay promises. */
  lemma {:induction false} ListRehearsed(w: World, o: Overlay, live: World, n: nat, t: Terms, ops: seq<Op>)
    requires Rehearsed(w, o, live, n) && n + |ops| < HALF32
    requires ValidateAll(w, o, t, ops).Some?
    ensures NeverFaults(live, t, ops)
    ensures Rehearsed(w, ValidateAll(w, o, t, ops).value, ApplyAll(live, t, ops), n + |ops|)
    decreases |ops|
  {
    hide Rehearsed, ValidateOp, ApplyOp;
    if ops != [] {
      StepRehearsed(w, o, live, n, t, ops[0]);
      ListRehearsed(w, ValidateOp(w, o, t, ops[0]).value, ApplyOp(live, t, ops[0]).value, n + 1, t, ops[1..]);
    }
  }

  lemma CountsRehearsed(w: World, o: Overlay, live: World, n: nat)
    requires Rehearsed(w, o, live, n)
    ensures forall id :: id in live.tracked ==> live.tracked[id].children == StagedCount(w, o, id)
  {
    hide Rehearsed, StagedCount;
    forall id | id in live.tracked ensures live.tracked[id].children == StagedCount(w, o, id) {
      CountIsRehearsed(w, o, live, n, id);
    }
  }

  /** All that validation promises about the state an accepted list leaves. */
  ghost predicate Promised(w: World, t: Terms, ops: seq<Op>, after: World)
  {
    var o := ValidateAll(w, EMPTY, t, ops);
    && o.Some? && NeverFaults(w, t, ops)
    && EdgesOf(after.tracked) == StagedEdges(w, o.value)
    && after.registry == StagedLeaves(w, o.value)
    && Forest(after.tracked) && Kept(w.tracked, after.tracked)
    && forall id :: id in after.tracked ==> after.tracked[id].children == StagedCount(w, o.value, id)
  }

  lemma AppliedIsPromised(w: World, t: Terms, ops: seq<Op>)
    requires Forest(w.tracked) && |w.tracked| < U32 && |ops| < HALF32
    requires ValidateAll(w, EMPTY, t, ops).Some?
    ensures Promised(w, t, ops, ApplyAll(w, t, ops))
  {
    hide ValidateAll, ApplyAll, NeverFaults, StagedCount, StagedEdges, StagedLeaves, Forest, Balanced, Small,
      Kept, EdgesOf;
    Start(w);
    ListRehearsed(w, EMPTY, w, 0, t, ops);
    CountsRehearsed(w, ValidateAll(w, EMPTY, t, ops).value, ApplyAll(w, t, ops), |ops|);
  }

  /** All or nothing, for every transaction: a refused list changes nothing, and an
      accepted one leaves exactly the validated state. The transaction shape allows at
      most 40 operations, far below the 32-bit bound. */
  lemma HandlingIsAtomic(w: World, sender: Option<Hash>, refs: set<Hash>, wired: bool,
                         epoch: u64, maxTerm: u64, ops: seq<Op>)
    requires Forest(w.tracked) && |w.tracked| < U32 && |ops| < HALF32
    ensures var (after, ok) := HandleDeclaredOps(w, sender, refs, wired, epoch, maxTerm, ops);
            && (!ok ==> after == w)
            && (ok ==> sender.Some? && sender.value != ZERO_HASH && ops != [] &&
                       Promised(w, Terms(sender.value, refs, wired, epoch, maxTerm), ops, after))
  {
    hide ValidateAll, ApplyAll, Promised, Forest;
    if sender.Some? {
      var t := Terms(sender.value, refs, wired, epoch, maxTerm);
      if ValidateAll(w, EMPTY, t, ops).Some? { AppliedIsPromised(w, t, ops); }
    }
  }
}
