/** Authority of declared operations: a transaction moves, destroys and renames only
    what its sender held before it ran. */
module Authority {
  import opened Common
  import opened Objects
  import opened Domains
  import opened Staged
  import opened StagedSafety

  // ---- Objects -------------------------------------------------------------------

  /** An object some other key rules is where it was, and still ruled by that key. */
  ghost predicate Undisturbed(start: Edges, edges: Edges, k: Hash, x: Hash)
  {
    x in edges && x in start && edges[x] == start[x] && Rules(edges, k, x)
  }

  ghost predicate Respects(start: Edges, edges: Edges, sender: Hash)
  {
    && edges.Keys <= start.Keys
    && forall x, k :: Rules(start, k, x) && k != sender ==> Undisturbed(start, edges, k, x)
  }

  /** Only declared mutable references move or go. */
  ghost predicate WithinRefs(start: Edges, edges: Edges, refs: set<Hash>)
  {
    forall x :: x in start && x !in refs ==> x in edges && edges[x] == start[x]
  }

  lemma {:induction false} AboveSharesRuler(edges: Edges, id: Hash, x: Hash, n: nat, k: Hash)
    requires Controller(edges, x, n) == Some(k) && Above(edges, id, x, n)
    ensures Rules(edges, k, id)
    decreases n
  {
    if x != id { AboveSharesRuler(edges, id, edges[x].id, n - 1, k); }
  }

  lemma MoveUndisturbed(start: Edges, edges: Edges, sender: Hash, id: Hash, parent: Ref, k: Hash, x: Hash)
    requires Undisturbed(start, edges, k, x) && k != sender
    requires Rules(edges, sender, id) && !WouldCycle(edges, id, parent)
    ensures Undisturbed(start, edges[id := parent], k, x)
  {
    hide WouldCycle, Controller;
    var n: nat :| Controller(edges, x, n) == Some(k);
    if x == id || Above(edges, id, x, n) {
      if x != id { AboveSharesRuler(edges, id, x, n, k); }
      RulerIsUnique(edges, sender, k, id);
    } else {
      var to: Hash := MoveTarget(edges, id, parent);
      MoveRules(edges, id, parent, to, x, k, n);
    }
  }

  lemma RemoveUndisturbed(start: Edges, edges: Edges, sender: Hash, id: Hash, k: Hash, x: Hash)
    requires Undisturbed(start, edges, k, x) && k != sender
    requires Rules(edges, sender, id) && Childless(edges, id)
    ensures Undisturbed(start, edges - {id}, k, x)
  {
    if x == id {
      RulerIsUnique(edges, sender, k, id);
    } else {
      var n: nat :| Controller(edges, x, n) == Some(k);
      RemoveRules(edges, id, x, n);
      assert Rules(edges - {id}, k, x);
    }
  }

  lemma MoveRespects(start: Edges, edges: Edges, sender: Hash, id: Hash, parent: Ref)
    requires Respects(start, edges, sender) && Rules(edges, sender, id) && !WouldCycle(edges, id, parent)
    ensures Respects(start, edges[id := parent], sender)
  {
    hide Rules, WouldCycle, Undisturbed;
    RuledIsTracked(edges, sender, id);
    forall x, k | Rules(start, k, x) && k != sender ensures Undisturbed(start, edges[id := parent], k, x) {
      MoveUndisturbed(start, edges, sender, id, parent, k, x);
    }
  }

  lemma RemoveRespects(start: Edges, edges: Edges, sender: Hash, id: Hash)
    requires Respects(start, edges, sender) && Rules(edges, sender, id) && Childless(edges, id)
    ensures Respects(start, edges - {id}, sender)
  {
    hide Rules, Undisturbed, Childless;
    forall x, k | Rules(start, k, x) && k != sender ensures Undisturbed(start, edges - {id}, k, x) {
      RemoveUndisturbed(start, edges, sender, id, k, x);
    }
  }

  /** The sender gains nothing: what it rules it already ruled. */
  lemma NothingGained(start: Edges, edges: Edges, sender: Hash, x: Hash)
    requires Rooted(start) && Respects(start, edges, sender) && Rules(edges, sender, x)
    ensures Rules(start, sender, x)
  {
    RuledIsTracked(edges, sender, x);
    var k: Hash :| Rules(start, k, x);
    if k != sender {
      assert Undisturbed(start, edges, k, x);
      RulerIsUnique(edges, sender, k, x);
    }
  }

  /** Whatever moved or went was the sender's. */
  lemma ChangedWasHeld(start: Edges, edges: Edges, sender: Hash, x: Hash)
    requires Rooted(start) && Respects(start, edges, sender) && x in start
    requires x !in edges || edges[x] != start[x]
    ensures Rules(start, sender, x)
  {
    var k: Hash :| Rules(start, k, x);
    assert k == sender;
  }

  // ---- Names -----------------------------------------------------------------------

  /** Names other keys own are untouched, and a name points somewhere new only if the
      sender ruled that object from the start. */
  ghost predicate NamesRespected(start: Registry, edges: Edges, leaves: Registry, sender: Hash)
  {
    && (forall n :: n in start && start[n].owner != sender ==> n in leaves && leaves[n] == start[n])
    && (forall n :: n in leaves ==> Pointed(start, edges, leaves[n], n, sender))
  }

  ghost predicate Pointed(start: Registry, edges: Edges, leaf: Leaf, n: string, sender: Hash)
  {
    (n in start && leaf.objectId == start[n].objectId) || Rules(edges, sender, leaf.objectId)
  }

  /** A leaf may be written over the sender's own name, or over a free one. */
  lemma WriteRespectsNames(start: Registry, edges: Edges, leaves: Registry, sender: Hash, name: string, leaf: Leaf)
    requires NamesRespected(start, edges, leaves, sender)
    requires name in leaves ==> leaves[name].owner == sender
    requires Pointed(start, edges, leaf, name, sender)
    ensures NamesRespected(start, edges, leaves[name := leaf], sender)
  {
  }

  lemma DropRespectsNames(start: Registry, edges: Edges, leaves: Registry, sender: Hash, name: string)
    requires NamesRespected(start, edges, leaves, sender)
    requires name in leaves && leaves[name].owner == sender
    ensures NamesRespected(start, edges, leaves - {name}, sender)
  {
  }

  // ---- One operation ----------------------------------------------------------------

  ghost predicate Lawful(w: World, o: Overlay, t: Terms)
  {
    && Respects(EdgesOf(w.tracked), StagedEdges(w, o), t.sender)
    && WithinRefs(EdgesOf(w.tracked), StagedEdges(w, o), t.refs)
    && NamesRespected(w.registry, EdgesOf(w.tracked), StagedLeaves(w, o), t.sender)
  }

  lemma LawfulReparent(w: World, o: Overlay, t: Terms, op: Op)
    requires Lawful(w, o, t) && ValidateReparent(w, o, t, op).Some?
    ensures Lawful(w, ValidateReparent(w, o, t, op).value, t)
  {
    var id, parent := op.objectId.value, TargetOf(op).value;
    ControlledIsTracked(StagedEdges(w, o), t.sender, id);
    ReparentEdges(w, o, id, parent);
    assert StagedLeaves(w, StageReparent(w, o, id, parent)) == StagedLeaves(w, o);
    hide StagedEdges, StagedLeaves, StageReparent, EdgesOf, Respects, NamesRespected, Controls, WouldCycle, Rules;
    MoveRespects(EdgesOf(w.tracked), StagedEdges(w, o), t.sender, id, parent);
  }

  lemma LawfulDelete(w: World, o: Overlay, live: World, n: nat, t: Terms, op: Op)
    requires Rehearsed(w, o, live, n)
    requires Lawful(w, o, t) && ValidateDelete(w, o, t, op).Some?
    ensures Lawful(w, ValidateDelete(w, o, t, op).value, t)
  {
    hide StagedEdges, StagedLeaves, StageDelete, EdgesOf, Respects, NamesRespected, Controls, Rules, Childless,
      StagedCount, Rehearsed;
    var id := op.objectId.value;
    DeletedIsChildless(w, o, live, n, t.sender, id);
    DeleteEdges(w, o, id);
    SameLeaves(w, o, id);
    RemoveRespects(EdgesOf(w.tracked), StagedEdges(w, o), t.sender, id);
  }

  lemma DeletedIsChildless(w: World, o: Overlay, live: World, n: nat, sender: Hash, id: Hash)
    requires Rehearsed(w, o, live, n) && Controls(StagedEdges(w, o), sender, id) && StagedCount(w, o, id) == 0
    ensures Childless(StagedEdges(w, o), id) && Rules(StagedEdges(w, o), sender, id)
  {
    StagedIsTracked(w, o, live, n, sender, id);
    ControlledIsTracked(StagedEdges(w, o), sender, id);
    CountIsRehearsed(w, o, live, n, id);
    hide StagedEdges, StagedCount, ChildrenOf, EdgesOf, Rules, Controls;
    ZeroCountIsChildless(live.tracked, id);
  }

  lemma SameLeaves(w: World, o: Overlay, id: Hash)
    ensures StagedLeaves(w, StageDelete(w, o, id)) == StagedLeaves(w, o)
  {
  }

  lemma LawfulLeaf(w: World, o: Overlay, t: Terms, op: Op)
    requires Rooted(EdgesOf(w.tracked)) && Lawful(w, o, t) && NewLeaf(w, o, t, op).Some?
    ensures Pointed(w.registry, EdgesOf(w.tracked), NewLeaf(w, o, t, op).value, op.name, t.sender)
    ensures op.name in StagedLeaves(w, o) ==> StagedLeaves(w, o)[op.name].owner == t.sender
  {
    hide StagedEdges, StagedLeaves, EdgesOf, Controls, ValidName, OwnsNamespace, Respects, WithinRefs, Rules,
      Rooted, DomainExpiry;
    if op.kind == REGISTER || op.kind == UPDATE {
      ControlledIsTracked(StagedEdges(w, o), t.sender, op.objectId.value);
      NothingGained(EdgesOf(w.tracked), StagedEdges(w, o), t.sender, op.objectId.value);
    }
  }

  lemma LawfulDomain(w: World, o: Overlay, t: Terms, op: Op)
    requires Rooted(EdgesOf(w.tracked)) && Lawful(w, o, t) && ValidateDomain(w, o, t, op).Some?
    ensures Lawful(w, ValidateDomain(w, o, t, op).value, t)
  {
    var o' := ValidateDomain(w, o, t, op).value;
    var edges := EdgesOf(w.tracked);
    assert StagedEdges(w, o') == StagedEdges(w, o);
    hide StagedEdges, StagedLeaves, EdgesOf, Respects, WithinRefs, NamesRespected, Pointed, NewLeaf, Rooted;
    if op.kind == DROP {
      LeafStaged(w, o, op.name, Leaf(ZERO_HASH, ZERO_HASH, 0));
      DropRespectsNames(w.registry, edges, StagedLeaves(w, o), t.sender, op.name);
    } else {
      LawfulLeaf(w, o, t, op);
      LeafStaged(w, o, op.name, NewLeaf(w, o, t, op).value);
      WriteRespectsNames(w.registry, edges, StagedLeaves(w, o), t.sender, op.name, NewLeaf(w, o, t, op).value);
    }
  }

  lemma LawfulStep(w: World, o: Overlay, live: World, n: nat, t: Terms, op: Op)
    requires Rooted(EdgesOf(w.tracked)) && Rehearsed(w, o, live, n)
    requires Lawful(w, o, t) && ValidateOp(w, o, t, op).Some?
    ensures Lawful(w, ValidateOp(w, o, t, op).value, t)
  {
    hide Rehearsed, Lawful, Rooted, ValidateReparent, ValidateDelete, ValidateDomain;
    if op.kind == REPARENT {
      LawfulReparent(w, o, t, op);
    } else if op.kind == DELETE {
      LawfulDelete(w, o, live, n, t, op);
    } else {
      LawfulDomain(w, o, t, op);
    }
  }

  lemma LawfulStart(w: World, t: Terms)
    ensures Lawful(w, EMPTY, t)
  {
    assert StagedEdges(w, EMPTY) == EdgesOf(w.tracked);
    assert StagedLeaves(w, EMPTY) == w.registry;
    hide EdgesOf, Controller;
    forall x, k | Rules(EdgesOf(w.tracked), k, x) && k != t.sender
      ensures Undisturbed(EdgesOf(w.tracked), StagedEdges(w, EMPTY), k, x) {
      RuledIsTracked(EdgesOf(w.tracked), k, x);
    }
  }

  // ---- A whole list -------------------------------------------------------------------

  lemma {:induction false} LawfulList(w: World, o: Overlay, live: World, n: nat, t: Terms, ops: seq<Op>)
    requires Rooted(EdgesOf(w.tracked)) && Rehearsed(w, o, live, n) && n + |ops| < HALF32
    requires Lawful(w, o, t) && ValidateAll(w, o, t, ops).Some?
    ensures Lawful(w, ValidateAll(w, o, t, ops).value, t)
    decreases |ops|
  {
    hide Rehearsed, Lawful, Rooted, ValidateOp, ApplyOp;
    if ops != [] {
      LawfulStep(w, o, live, n, t, ops[0]);
      StepRehearsed(w, o, live, n, t, ops[0]);
      LawfulList(w, ValidateOp(w, o, t, ops[0]).value, ApplyOp(live, t, ops[0]).value, n + 1, t, ops[1..]);
    }
  }

  /** What one transaction may do to objects: move or destroy only declared references its
      sender ruled beforehand, and leave every other key's objects in place and ruled by
      that key. */
  ghost predicate ObjectAuthority(before: Edges, after: Edges, sender: Hash, refs: set<Hash>)
  {
    && (forall x :: x in before && (x !in after || after[x] != before[x]) ==> x in refs && Rules(before, sender, x))
    && (forall x, k :: Rules(before, k, x) && k != sender ==> Rules(after, k, x))
    && (forall x :: Rules(after, sender, x) ==> Rules(before, sender, x))
  }

  lemma RespectIsAuthority(before: Edges, after: Edges, sender: Hash, refs: set<Hash>)
    requires Rooted(before) && Respects(before, after, sender) && WithinRefs(before, after, refs)
    ensures ObjectAuthority(before, after, sender, refs)
  {
    hide Rules, Rooted;
    forall x | x in before && (x !in after || after[x] != before[x]) ensures x in refs && Rules(before, sender, x) {
      ChangedWasHeld(before, after, sender, x);
    }
    forall x, k | Rules(before, k, x) && k != sender ensures Rules(after, k, x) {
      assert Undisturbed(before, after, k, x);
    }
    forall x | Rules(after, sender, x) ensures Rules(before, sender, x) {
      NothingGained(before, after, sender, x);
    }
  }

  /** Every transaction, whatever it declares, stays within its sender's authority. */
  lemma HandlingIsAuthorised(w: World, sender: Option<Hash>, refs: set<Hash>, wired: bool,
                             epoch: u64, maxTerm: u64, ops: seq<Op>)
    requires Forest(w.tracked) && |w.tracked| < U32 && |ops| < HALF32
    requires HandleDeclaredOps(w, sender, refs, wired, epoch, maxTerm, ops).1
    ensures sender.Some? && sender.value != ZERO_HASH
    ensures var after := HandleDeclaredOps(w, sender, refs, wired, epoch, maxTerm, ops).0;
            && ObjectAuthority(EdgesOf(w.tracked), EdgesOf(after.tracked), sender.value, refs)
            && NamesRespected(w.registry, EdgesOf(w.tracked), after.registry, sender.value)
  {
    var t := Terms(sender.value, refs, wired, epoch, maxTerm);
    var o := ValidateAll(w, EMPTY, t, ops).value;
    hide ValidateAll, ApplyAll, EdgesOf, StagedEdges, StagedLeaves, NamesRespected, ObjectAuthority, Respects,
      WithinRefs, NeverFaults, Kept, StagedCount, Rehearsed, Rooted, Counted;
    Start(w);
    LawfulStart(w, t);
    LawfulList(w, EMPTY, w, 0, t, ops);
    AppliedIsPromised(w, t, ops);
    RespectIsAuthority(EdgesOf(w.tracked), StagedEdges(w, o), t.sender, refs);
  }

  // ---- The registry over runs -----------------------------------------------------------

  lemma GoodNewLeaf(w: World, o: Overlay, t: Terms, op: Op, grace: u64)
    requires GoodRegistry(StagedLeaves(w, o), t.epoch, t.maxTerm, grace) && t.sender != ZERO_HASH
    requires NewLeaf(w, o, t, op).Some?
    ensures GoodLeaf(op.name, NewLeaf(w, o, t, op).value, t.epoch, t.maxTerm, grace)
  {
    hide StagedEdges, StagedLeaves, Controls, ValidName, Unreserved;
    var leaves := StagedLeaves(w, o);
    if op.kind == REGISTER {
      var space := ParentName(op.name);
      if space.Some? { assert GoodLeaf(space.value, leaves[space.value], t.epoch, t.maxTerm, grace); }
      NamespaceDecides(op.name);
    } else {
      assert GoodLeaf(op.name, leaves[op.name], t.epoch, t.maxTerm, grace);
    }
  }

  lemma GoodDomainStep(w: World, o: Overlay, t: Terms, op: Op, grace: u64)
    requires GoodRegistry(StagedLeaves(w, o), t.epoch, t.maxTerm, grace) && t.sender != ZERO_HASH
    requires ValidateDomain(w, o, t, op).Some?
    ensures GoodRegistry(StagedLeaves(w, ValidateDomain(w, o, t, op).value), t.epoch, t.maxTerm, grace)
  {
    hide StagedLeaves, NewLeaf, GoodLeaf;
    if op.kind == DROP {
      LeafStaged(w, o, op.name, Leaf(ZERO_HASH, ZERO_HASH, 0));
    } else {
      GoodNewLeaf(w, o, t, op, grace);
      LeafStaged(w, o, op.name, NewLeaf(w, o, t, op).value);
    }
  }

  lemma {:induction false} GoodList(w: World, o: Overlay, t: Terms, ops: seq<Op>, grace: u64)
    requires GoodRegistry(StagedLeaves(w, o), t.epoch, t.maxTerm, grace) && t.sender != ZERO_HASH
    requires ValidateAll(w, o, t, ops).Some?
    ensures GoodRegistry(StagedLeaves(w, ValidateAll(w, o, t, ops).value), t.epoch, t.maxTerm, grace)
    decreases |ops|
  {
    hide GoodRegistry, StagedEdges, ValidateDomain;
    if ops != [] {
      var op := ops[0];
      if REGISTER <= op.kind <= DROP { GoodDomainStep(w, o, t, op, grace); }
      assert op.kind < REGISTER ==>
        StagedLeaves(w, ValidateOp(w, o, t, op).value) == StagedLeaves(w, o);
      GoodList(w, ValidateOp(w, o, t, op).value, t, ops[1..], grace);
    }
  }

  /** One event in the life of the registry: a transaction at the live epoch, a change to
      the tracker alone, or an epoch boundary. */
  datatype Event =
    | Transaction(sender: Option<Hash>, refs: set<Hash>, wired: bool, ops: seq<Op>)
    | Elsewhere(tracked: Tracked)
    | Boundary

  datatype Era = Era(world: World, epoch: u64)

  ghost predicate Next(a: Era, e: Event, b: Era, maxTerm: u64, grace: u64)
  {
    match e
    case Transaction(sender, refs, wired, ops) =>
      && Forest(a.world.tracked) && |a.world.tracked| < U32 && |ops| < HALF32
      && b == Era(HandleDeclaredOps(a.world, sender, refs, wired, a.epoch, maxTerm, ops).0, a.epoch)
    case Elsewhere(tracked) => b == a.(world := a.world.(tracked := tracked))
    case Boundary =>
      && a.epoch < MAX_U64
      && b == Era(World(a.world.tracked, a.world.registry - Expired(a.world.registry, a.epoch + 1, grace)), a.epoch + 1)
  }

  lemma TransactionKeepsGood(w: World, sender: Option<Hash>, refs: set<Hash>, wired: bool,
                             epoch: u64, maxTerm: u64, ops: seq<Op>, grace: u64)
    requires Forest(w.tracked) && |w.tracked| < U32 && |ops| < HALF32
    requires GoodRegistry(w.registry, epoch, maxTerm, grace)
    ensures GoodRegistry(HandleDeclaredOps(w, sender, refs, wired, epoch, maxTerm, ops).0.registry,
                         epoch, maxTerm, grace)
  {
    hide ValidateAll, ApplyAll, Forest, GoodRegistry, EdgesOf, StagedEdges, NeverFaults, Kept, StagedCount;
    if HandleDeclaredOps(w, sender, refs, wired, epoch, maxTerm, ops).1 {
      var t := Terms(sender.value, refs, wired, epoch, maxTerm);
      assert StagedLeaves(w, EMPTY) == w.registry;
      hide StagedLeaves;
      GoodList(w, EMPTY, t, ops, grace);
      AppliedIsPromised(w, t, ops);
    }
  }

  /** Over every run of transactions and epoch boundaries from an empty registry, every
      registered name is well formed and free of the reserved label, has a non-zero owner,
      is within its grace window, and is leased no further than the cap. */
  lemma {:induction false} RegistryIsGood(eras: seq<Era>, events: seq<Event>, maxTerm: u64, grace: u64, i: nat)
    requires |eras| == |events| + 1 && i < |eras| && eras[0].world.registry == map[]
    requires forall j :: 0 <= j < |events| ==> Next(eras[j], events[j], eras[j + 1], maxTerm, grace)
    ensures GoodRegistry(eras[i].world.registry, eras[i].epoch, maxTerm, grace)
  {
    hide GoodRegistry, HandleDeclaredOps, Expired, Forest;
    if i == 0 {
      EmptyIsGood(eras[0].epoch, maxTerm, grace);
    } else {
      RegistryIsGood(eras, events, maxTerm, grace, i - 1);
      var a, e := eras[i - 1], events[i - 1];
      assert Next(a, e, eras[i - 1 + 1], maxTerm, grace);
      match e
      case Transaction(sender, refs, wired, ops) =>
        TransactionKeepsGood(a.world, sender, refs, wired, a.epoch, maxTerm, ops, grace);
      case Elsewhere(_) =>
      case Boundary =>
        SweepKeepsGood(a.world.registry, a.epoch, maxTerm, grace);
    }
  }

  lemma EmptyIsGood(epoch: u64, maxTerm: u64, grace: u64)
    ensures GoodRegistry(map[], epoch, maxTerm, grace)
  {
  }
}
