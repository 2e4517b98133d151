/** Declared operations: validated one by one against an overlay, then applied to the
    real tracker and registry (internal/consensus/staged.go, staged_domain.go, ops.go,
    domainops.go). */
module Staged {
  import opened Common
  import opened Objects
  import opened Domains

  const KEY_ROOT: nat := 0
  const OBJECT_PARENT: nat := 1

  const REPARENT: nat := 0
  const DELETE: nat := 1
  const REGISTER: nat := 2
  const RENEW: nat := 3
  const UPDATE: nat := 4
  const TRANSFER: nat := 5
  const DROP: nat := 6

  /** A declared operation as the wire carries it; an identifier that is not 32 bytes
      long is `None`. */
  datatype Op = Op(kind: nat, objectId: Option<Hash>, targetKind: nat, target: Option<Hash>, name: string, term: u32)

  datatype World = World(tracked: Tracked, registry: Registry)

  /** What the operations of one transaction are judged by. */
  datatype Terms = Terms(sender: Hash, refs: set<Hash>, wired: bool, epoch: u64, maxTerm: u64)

  datatype Overlay = Overlay(parents: Edges, deleted: set<Hash>, delta: map<Hash, int>,
                             leaves: Registry, removed: set<string>)

  const EMPTY: Overlay := Overlay(map[], {}, map[], map[], {})

  // ---- Reading through the overlay ----------------------------------------------

  function StagedEdges(w: World, o: Overlay): Edges
  {
    (EdgesOf(w.tracked) + o.parents) - o.deleted
  }

  function StagedLeaves(w: World, o: Overlay): Registry
  {
    (w.registry + o.leaves) - o.removed
  }

  function DeltaOf(delta: map<Hash, int>, id: Hash): int
  {
    if id in delta then delta[id] else 0
  }

  /** Committed count plus staged change, floored at zero. */
  function StagedCount(w: World, o: Overlay, id: Hash): nat
  {
    var staged := Get(w.tracked, id).children + DeltaOf(o.delta, id);
    if staged < 0 then 0 else staged % U32
  }

  const HALF32: int := 0x8000_0000

  /** The 32-bit signed counter the overlay accumulates in. */
  function Int32(x: int): int
  {
    (x + HALF32) % U32 - HALF32
  }

  function Nudge(delta: map<Hash, int>, parent: Ref, step: int): map<Hash, int>
  {
    if parent.Obj? then delta[parent.id := Int32(DeltaOf(delta, parent.id) + step)] else delta
  }

  function StageReparent(w: World, o: Overlay, id: Hash, parent: Ref): Overlay
  {
    var edges := StagedEdges(w, o);
    var less := if id in edges then Nudge(o.delta, edges[id], -1) else o.delta;
    o.(parents := o.parents[id := parent], delta := Nudge(less, parent, 1))
  }

  function StageDelete(w: World, o: Overlay, id: Hash): Overlay
  {
    var edges := StagedEdges(w, o);
    o.(deleted := o.deleted + {id}, delta := if id in edges then Nudge(o.delta, edges[id], -1) else o.delta)
  }

  function StageLeaf(o: Overlay, name: string, leaf: Leaf): Overlay
  {
    o.(leaves := o.leaves[name := leaf], removed := o.removed - {name})
  }

  function StageDrop(o: Overlay, name: string): Overlay
  {
    o.(leaves := o.leaves[name := Leaf(ZERO_HASH, ZERO_HASH, 0)], removed := o.removed + {name})
  }

  // ---- Validation ---------------------------------------------------------------

  function TargetOf(op: Op): Option<Ref>
  {
    if op.target.None? then None
    else if op.targetKind == KEY_ROOT then Some(Key(op.target.value))
    else if op.targetKind == OBJECT_PARENT then Some(Obj(op.target.value))
    else None
  }

  /** The operation names a mutable reference its sender controls. */
  predicate Commands(w: World, o: Overlay, t: Terms, id: Option<Hash>)
  {
    id.Some? && id.value in t.refs && Controls(StagedEdges(w, o), t.sender, id.value)
  }

  function ValidateReparent(w: World, o: Overlay, t: Terms, op: Op): Option<Overlay>
  {
    if !Commands(w, o, t, op.objectId) then None
    else
      var target := TargetOf(op);
      if target.None? then None
      else if target.value.Obj? && !Controls(StagedEdges(w, o), t.sender, target.value.id) then None
      else if WouldCycle(StagedEdges(w, o), op.objectId.value, target.value) then None
      else Some(StageReparent(w, o, op.objectId.value, target.value))
  }

  function ValidateDelete(w: World, o: Overlay, t: Terms, op: Op): Option<Overlay>
  {
    if !Commands(w, o, t, op.objectId) then None
    else if StagedCount(w, o, op.objectId.value) != 0 then None
    else Some(StageDelete(w, o, op.objectId.value))
  }

  predicate Owns(leaves: Registry, sender: Hash, name: string)
  {
    name in leaves && leaves[name].owner == sender && sender != ZERO_HASH
  }

  predicate OwnsNamespace(leaves: Registry, sender: Hash, name: string, epoch: u64)
  {
    match ParentName(name)
    case None => true
    case Some(space) => Owns(leaves, sender, space) && leaves[space].expiry >= epoch
  }

  /** The leaf a domain operation leaves behind, when it is allowed one. */
  function NewLeaf(w: World, o: Overlay, t: Terms, op: Op): Option<Leaf>
  {
    var leaves := StagedLeaves(w, o);
    var controlled := op.objectId.Some? && Controls(StagedEdges(w, o), t.sender, op.objectId.value);
    if op.kind == REGISTER then
      if ValidName(op.name) && op.name !in leaves && OwnsNamespace(leaves, t.sender, op.name, t.epoch)
         && controlled then
        var expiry := DomainExpiry(0, t.epoch, op.term, t.maxTerm);
        if expiry.None? then None else Some(Leaf(op.objectId.value, t.sender, expiry.value))
      else None
    else if !Owns(leaves, t.sender, op.name) then None
    else if op.kind == RENEW then
      var expiry := DomainExpiry(leaves[op.name].expiry, t.epoch, op.term, t.maxTerm);
      if expiry.None? then None else Some(leaves[op.name].(expiry := expiry.value))
    else if op.kind == UPDATE then
      if controlled then Some(leaves[op.name].(objectId := op.objectId.value)) else None
    else if op.kind == TRANSFER then
      if op.target.Some? && op.target.value != ZERO_HASH then Some(leaves[op.name].(owner := op.target.value)) else None
    else None
  }

  function ValidateDomain(w: World, o: Overlay, t: Terms, op: Op): Option<Overlay>
  {
    if !t.wired then None
    else if op.kind == DROP then
      if Owns(StagedLeaves(w, o), t.sender, op.name) then Some(StageDrop(o, op.name)) else None
    else
      var leaf := NewLeaf(w, o, t, op);
      if leaf.None? then None else Some(StageLeaf(o, op.name, leaf.value))
  }

  function ValidateOp(w: World, o: Overlay, t: Terms, op: Op): Option<Overlay>
  {
    if op.kind > DROP then None
    else if op.kind == REPARENT then ValidateReparent(w, o, t, op)
    else if op.kind == DELETE then ValidateDelete(w, o, t, op)
    else ValidateDomain(w, o, t, op)
  }

  function ValidateAll(w: World, o: Overlay, t: Terms, ops: seq<Op>): Option<Overlay>
    decreases |ops|
  {
    if ops == [] then Some(o)
    else
      var next := ValidateOp(w, o, t, ops[0]);
      if next.None? then None else ValidateAll(w, next.value, t, ops[1..])
  }

  // ---- Application --------------------------------------------------------------

  /** The leaf application writes, re-derived from the store; `None` where application
      finds no leaf or disagrees about the term. */
  function WrittenLeaf(registry: Registry, t: Terms, op: Op): Option<Leaf>
  {
    if op.kind == REGISTER then
      var expiry := DomainExpiry(0, t.epoch, op.term, t.maxTerm);
      if expiry.None? || op.objectId.None? then None else Some(Leaf(op.objectId.value, t.sender, expiry.value))
    else if op.name !in registry then None
    else if op.kind == RENEW then
      var expiry := DomainExpiry(registry[op.name].expiry, t.epoch, op.term, t.maxTerm);
      if expiry.None? then None else Some(registry[op.name].(expiry := expiry.value))
    else if op.kind == UPDATE then
      if op.objectId.None? then None else Some(registry[op.name].(objectId := op.objectId.value))
    else if op.kind == TRANSFER then
      if op.target.None? then None else Some(registry[op.name].(owner := op.target.value))
    else None
  }

  /** One application step; `None` where the step could not do what was validated. */
  function ApplyOp(w: World, t: Terms, op: Op): Option<World>
  {
    if op.kind == REPARENT then
      if op.objectId.None? || TargetOf(op).None? then None
      else Some(w.(tracked := SetParent(w.tracked, op.objectId.value, TargetOf(op).value)))
    else if op.kind == DELETE then
      if op.objectId.None? || op.objectId.value !in w.tracked then None
      else Some(w.(tracked := Objects.Delete(w.tracked, op.objectId.value)))
    else if op.kind == DROP then
      if op.name !in w.registry then None else Some(w.(registry := w.registry - {op.name}))
    else
      var leaf := WrittenLeaf(w.registry, t, op);
      if leaf.None? then None else Some(w.(registry := w.registry[op.name := leaf.value]))
  }

  /** The whole list against the real state; a step that cannot proceed is skipped. */
  function ApplyAll(w: World, t: Terms, ops: seq<Op>): World
    decreases |ops|
  {
    if ops == [] then w
    else
      var next := ApplyOp(w, t, ops[0]);
      ApplyAll(if next.None? then w else next.value, t, ops[1..])
  }

  /** Every step of an application does what was validated. */
  predicate NeverFaults(w: World, t: Terms, ops: seq<Op>)
    decreases |ops|
  {
    ops == [] || (ApplyOp(w, t, ops[0]).Some? && NeverFaults(ApplyOp(w, t, ops[0]).value, t, ops[1..]))
  }

  /** handleDeclaredOps: all or nothing. `sender` is `None` unless it is 32 bytes long. */
  function HandleDeclaredOps(w: World, sender: Option<Hash>, refs: set<Hash>, wired: bool,
                             epoch: u64, maxTerm: u64, ops: seq<Op>): (World, bool)
  {
    if sender.None? || sender.value == ZERO_HASH || ops == [] then (w, false)
    else
      var t := Terms(sender.value, refs, wired, epoch, maxTerm);
      if ValidateAll(w, EMPTY, t, ops).None? then (w, false) else (ApplyAll(w, t, ops), true)
  }
}
