/** What accepted operations do, said of the fields the wire carries: where each object and
    each name ends up, and which operations are accepted at all
    (internal/consensus/ops.go, staged.go, staged_domain.go, domainops.go). */
module Effects {
  import opened Common
  import opened Objects
  import opened Domains
  import opened Staged
  import opened StagedSafety

  // ---- Walks as paths -----------------------------------------------------------------

  /** A path of tracked objects, each under the next, the last under `key`. */
  ghost predicate LeadsTo(edges: Edges, path: seq<Hash>, key: Hash)
  {
    && path != [] && (forall i :: 0 <= i < |path| ==> path[i] in edges)
    && (forall i :: 0 <= i < |path| - 1 ==> edges[path[i]] == Obj(path[i + 1]))
    && edges[path[|path| - 1]] == Key(key)
  }

  /** A path from `id` to `key` of at most `limit` objects. */
  ghost predicate Within(edges: Edges, id: Hash, path: seq<Hash>, key: Hash, limit: nat)
  {
    LeadsTo(edges, path, key) && path[0] == id && |path| <= limit
  }

  lemma PathTail(edges: Edges, path: seq<Hash>, key: Hash)
    requires LeadsTo(edges, path, key) && |path| > 1
    ensures LeadsTo(edges, path[1..], key) && edges[path[0]] == Obj(path[1..][0])
  {
    forall i | 0 <= i < |path[1..]| - 1 ensures edges[path[1..][i]] == Obj(path[1..][i + 1]) {
      assert edges[path[i + 1]] == Obj(path[i + 1 + 1]);
    }
    assert edges[path[0]] == Obj(path[0 + 1]);
  }

  lemma PathCons(edges: Edges, id: Hash, path: seq<Hash>, key: Hash)
    requires LeadsTo(edges, path, key) && id in edges && edges[id] == Obj(path[0])
    ensures LeadsTo(edges, [id] + path, key)
  {
    var whole := [id] + path;
    forall i | 0 <= i < |whole| - 1 ensures edges[whole[i]] == Obj(whole[i + 1]) {
      if i > 0 { assert edges[path[i - 1]] == Obj(path[i - 1 + 1]); }
    }
  }

  /** The bounded walk finds a key exactly when a path of that many objects leads to it. */
  lemma {:induction false} ControllerIff(edges: Edges, id: Hash, key: Hash, limit: nat)
    ensures Controller(edges, id, limit) == Some(key) <==> exists path :: Within(edges, id, path, key, limit)
    decreases limit
  {
    if limit > 0 && id in edges {
      match edges[id]
      case Key(k) =>
        if k == key { assert Within(edges, id, [id], key, limit); }
        forall path | Within(edges, id, path, key, limit) ensures k == key {
          if |path| > 1 { PathTail(edges, path, key); }
        }
      case Obj(p) =>
        ControllerIff(edges, p, key, limit - 1);
        if Controller(edges, p, limit - 1) == Some(key) {
          var path :| Within(edges, p, path, key, limit - 1);
          PathCons(edges, id, path, key);
          assert Within(edges, id, [id] + path, key, limit);
        }
        forall path | Within(edges, id, path, key, limit) ensures Controller(edges, p, limit - 1) == Some(key) {
          if |path| > 1 {
            PathTail(edges, path, key);
            assert Within(edges, p, path[1..], key, limit - 1);
          }
        }
    }
  }

  /** The sender controls an object exactly when a path of at most 256 objects leads from it
      to the sender's key. */
  lemma ControlsIff(edges: Edges, sender: Hash, id: Hash)
    ensures Controls(edges, sender, id) <==> exists path :: Within(edges, id, path, sender, 256)
  {
    ControllerIff(edges, id, sender, 256);
  }

  /** A path up from `current` that reaches some key without meeting `id`. */
  ghost predicate Clear(edges: Edges, id: Hash, current: Hash, path: seq<Hash>, key: Hash, limit: nat)
  {
    Within(edges, current, path, key, limit) && id !in path
  }

  lemma {:induction false} CyclesIff(edges: Edges, id: Hash, current: Hash, limit: nat)
    ensures !Cycles(edges, id, current, limit) <==>
              exists path, key: Hash :: Clear(edges, id, current, path, key, limit)
    decreases limit
  {
    if limit > 0 && current != id && current in edges {
      match edges[current]
      case Key(k) => assert Clear(edges, id, current, [current], k, limit);
      case Obj(p) =>
        CyclesIff(edges, id, p, limit - 1);
        if !Cycles(edges, id, p, limit - 1) {
          var path, key: Hash :| Clear(edges, id, p, path, key, limit - 1);
          PathCons(edges, current, path, key);
          assert Clear(edges, id, current, [current] + path, key, limit);
        }
        forall path, key: Hash | Clear(edges, id, current, path, key, limit)
          ensures !Cycles(edges, id, p, limit - 1)
        {
          if |path| > 1 {
            PathTail(edges, path, key);
            assert Clear(edges, id, p, path[1..], key, limit - 1);
          }
        }
    } else if limit > 0 && current == id {
      forall path, key: Hash | Within(edges, current, path, key, limit) ensures id in path { assert path[0] == id; }
    }
  }

  /** A move under an object is refused as a cycle exactly when no path of at most 256 objects
      leads from the new parent to a key without passing the moved object. */
  lemma WouldCycleIff(edges: Edges, id: Hash, parent: Ref)
    ensures WouldCycle(edges, id, parent) <==>
              parent.Obj? && !exists path, key: Hash :: Clear(edges, id, parent.id, path, key, 256)
  {
    if parent.Obj? { CyclesIff(edges, id, parent.id, 256); }
  }

  // ---- Which operations are accepted ---------------------------------------------------

  /** A reparent is accepted exactly when its sender controls the object, a mutable reference,
      and the target is a key, or an object the sender controls and the move closes no cycle. */
  lemma ReparentAcceptedIff(w: World, o: Overlay, t: Terms, op: Op)
    requires op.kind == 0
    ensures ValidateOp(w, o, t, op).Some? <==>
              var edges := StagedEdges(w, o);
              && op.objectId.Some? && op.objectId.value in t.refs && Controls(edges, t.sender, op.objectId.value)
              && op.target.Some?
              && (op.targetKind == 0
                  || (op.targetKind == 1 && Controls(edges, t.sender, op.target.value)
                      && !WouldCycle(edges, op.objectId.value, Obj(op.target.value))))
  {
    hide Controls, WouldCycle;
    NoCycleUnderKey(StagedEdges(w, o), op);
  }

  lemma NoCycleUnderKey(edges: Edges, op: Op)
    ensures op.objectId.Some? && op.target.Some? ==> !WouldCycle(edges, op.objectId.value, Key(op.target.value))
  {
  }

  /** A delete is accepted exactly when the sender controls the object, a mutable reference,
      and nothing is left under it. */
  lemma DeleteAcceptedIff(w: World, o: Overlay, t: Terms, op: Op)
    requires op.kind == 1
    ensures ValidateOp(w, o, t, op).Some? <==>
              && op.objectId.Some? && op.objectId.value in t.refs
              && Controls(StagedEdges(w, o), t.sender, op.objectId.value)
              && StagedCount(w, o, op.objectId.value) == 0
  {
    hide Controls, StagedCount;
  }

  /** The sender may act on the names of this namespace now. */
  ghost predicate HoldsSpace(leaves: Registry, sender: Hash, name: string, epoch: u64)
  {
    ParentName(name).Some? ==>
      && ParentName(name).value in leaves && leaves[ParentName(name).value].owner == sender && sender != 0
      && leaves[ParentName(name).value].expiry >= epoch
  }

  /** Which domain operation is accepted, kind by kind. */
  ghost predicate NameAllowed(w: World, o: Overlay, t: Terms, op: Op)
  {
    var leaves := StagedLeaves(w, o);
    var held := op.name in leaves && leaves[op.name].owner == t.sender && t.sender != 0;
    var controlled := op.objectId.Some? && Controls(StagedEdges(w, o), t.sender, op.objectId.value);
    && t.wired
    && (op.kind == 2 ==> && ValidName(op.name) && op.name !in leaves && HoldsSpace(leaves, t.sender, op.name, t.epoch)
                         && controlled && Affordable(0, t.epoch, op.term, t.maxTerm))
    && (op.kind == 3 ==> held && Affordable(leaves[op.name].expiry, t.epoch, op.term, t.maxTerm))
    && (op.kind == 4 ==> held && controlled)
    && (op.kind == 5 ==> held && op.target.Some? && op.target.value != 0)
    && (op.kind == 6 ==> held)
  }

  /** The term is positive and ends no later than the longest term from now. */
  predicate Affordable(current: u64, epoch: u64, term: u64, maxTerm: u64)
  {
    0 < term && SafeAdd(Later(current, epoch), term) <= SafeAdd(epoch, maxTerm)
  }

  lemma NameAcceptedIff(w: World, o: Overlay, t: Terms, op: Op)
    requires 2 <= op.kind <= 6
    ensures ValidateOp(w, o, t, op).Some? <==> NameAllowed(w, o, t, op)
  {
    hide Controls, ValidName, SafeAdd;
  }

  // ---- One step ------------------------------------------------------------------------

  predicate TouchesObject(op: Op, id: Hash)
  {
    op.kind <= 1 && op.objectId == Some(id)
  }

  predicate TouchesName(op: Op, name: string)
  {
    2 <= op.kind && op.name == name
  }

  function EdgeOf(w: World, id: Hash): Option<Ref>
  {
    if id in w.tracked then Some(w.tracked[id].parent) else None
  }

  function LeafOf(w: World, name: string): Option<Leaf>
  {
    if name in w.registry then Some(w.registry[name]) else None
  }

  lemma EdgesTell(w: World, id: Hash)
    ensures EdgeOf(w, id) == if id in EdgesOf(w.tracked) then Some(EdgesOf(w.tracked)[id]) else None
  {
  }

  /** Where one applied operation puts an object. */
  lemma ObjectStep(w: World, t: Terms, op: Op, id: Hash)
    requires ApplyOp(w, t, op).Some?
    ensures var w' := ApplyOp(w, t, op).value;
            && (!TouchesObject(op, id) ==> EdgeOf(w', id) == EdgeOf(w, id))
            && (TouchesObject(op, id) && op.kind == 0 ==>
                  && op.target.Some? && op.targetKind <= 1
                  && EdgeOf(w', id) == Some(if op.targetKind == 0 then Key(op.target.value) else Obj(op.target.value)))
            && (TouchesObject(op, id) && op.kind == 1 ==> EdgeOf(w', id) == None)
  {
    hide SetParent, Objects.Delete;
    var w' := ApplyOp(w, t, op).value;
    EdgesTell(w, id);
    EdgesTell(w', id);
    if op.kind == 0 { SetParentEffect(w.tracked, op.objectId.value, TargetOf(op).value); }
    if op.kind == 1 { DeleteEffect(w.tracked, op.objectId.value); }
  }

  /** What one applied operation makes of a name. */
  lemma NameStep(w: World, t: Terms, op: Op, name: string)
    requires ApplyOp(w, t, op).Some?
    ensures var was, now := LeafOf(w, name), LeafOf(ApplyOp(w, t, op).value, name);
            && (!TouchesName(op, name) ==> now == was)
            && (TouchesName(op, name) && 3 <= op.kind ==> was.Some?)
            && (TouchesName(op, name) && op.kind == 2 ==>
                  && op.objectId.Some? && Affordable(0, t.epoch, op.term, t.maxTerm)
                  && now == Some(Leaf(op.objectId.value, t.sender, SafeAdd(t.epoch, op.term))))
            && (TouchesName(op, name) && op.kind == 3 ==>
                  && Affordable(was.value.expiry, t.epoch, op.term, t.maxTerm)
                  && now == Some(Leaf(was.value.objectId, was.value.owner,
                                      SafeAdd(Later(was.value.expiry, t.epoch), op.term))))
            && (TouchesName(op, name) && op.kind == 4 ==>
                  op.objectId.Some? && now == Some(Leaf(op.objectId.value, was.value.owner, was.value.expiry)))
            && (TouchesName(op, name) && op.kind == 5 ==>
                  op.target.Some? && now == Some(Leaf(was.value.objectId, op.target.value, was.value.expiry)))
            && (TouchesName(op, name) && op.kind == 6 ==> now == None)
  {
    hide SafeAdd;
  }

  // ---- The whole list ----------------------------------------------------------------------

  /** A list applied without a fault is its steps one after the other. */
  lemma {:induction false} SplitAt(w: World, t: Terms, ops: seq<Op>, i: nat)
    requires NeverFaults(w, t, ops) && i < |ops|
    ensures var before := ApplyAll(w, t, ops[..i]);
            && ApplyOp(before, t, ops[i]).Some?
            && var mid := ApplyOp(before, t, ops[i]).value;
               NeverFaults(mid, t, ops[i + 1..]) && ApplyAll(w, t, ops) == ApplyAll(mid, t, ops[i + 1..])
    decreases |ops|
  {
    hide ApplyOp;
    if i == 0 {
      assert ops[..0] == [];
    } else {
      var next := ApplyOp(w, t, ops[0]).value;
      SplitAt(next, t, ops[1..], i - 1);
      assert ops[..i][1..] == ops[1..][..i - 1] && ops[..i][0] == ops[0];
      assert ops[1..][i..] == ops[i + 1..];
    }
  }

  lemma {:induction false} Untouched(w: World, t: Terms, ops: seq<Op>, id: Hash, name: string)
    requires NeverFaults(w, t, ops)
    ensures (forall j :: 0 <= j < |ops| ==> !TouchesObject(ops[j], id)) ==>
              EdgeOf(ApplyAll(w, t, ops), id) == EdgeOf(w, id)
    ensures (forall j :: 0 <= j < |ops| ==> !TouchesName(ops[j], name)) ==>
              LeafOf(ApplyAll(w, t, ops), name) == LeafOf(w, name)
    decreases |ops|
  {
    hide ApplyOp, EdgeOf, LeafOf, TouchesObject, TouchesName;
    if ops != [] {
      ObjectStep(w, t, ops[0], id);
      NameStep(w, t, ops[0], name);
      Untouched(ApplyOp(w, t, ops[0]).value, t, ops[1..], id, name);
    }
  }

  /** After an accepted list an object is where the last operation naming it says: under the
      named key for target kind 0, under the named object for kind 1, gone after a delete. An
      object no operation names stays where it was. */
  lemma ObjectsEndUp(w: World, sender: Option<Hash>, refs: set<Hash>, wired: bool,
                     epoch: u64, maxTerm: u64, ops: seq<Op>, id: Hash, i: nat)
    requires Forest(w.tracked) && |w.tracked| < U32 && |ops| < HALF32 && i <= |ops|
    requires HandleDeclaredOps(w, sender, refs, wired, epoch, maxTerm, ops).1
    requires i < |ops| ==> TouchesObject(ops[i], id)
    requires forall j :: (if i < |ops| then i + 1 else 0) <= j < |ops| ==> !TouchesObject(ops[j], id)
    ensures var after := HandleDeclaredOps(w, sender, refs, wired, epoch, maxTerm, ops).0;
            && (i == |ops| ==> EdgeOf(after, id) == EdgeOf(w, id))
            && (i < |ops| && ops[i].kind == 0 ==>
                  && ops[i].target.Some?
                  && (ops[i].targetKind == 0 || ops[i].targetKind == 1)
                  && (ops[i].targetKind == 0 ==> EdgeOf(after, id) == Some(Key(ops[i].target.value))
                                                 && Rules(EdgesOf(after.tracked), ops[i].target.value, id))
                  && (ops[i].targetKind == 1 ==> EdgeOf(after, id) == Some(Obj(ops[i].target.value))))
            && (i < |ops| && ops[i].kind == 1 ==> id !in after.tracked)
  {
    hide ApplyOp, ApplyAll, NeverFaults, ValidateAll, Forest, Rules, TouchesObject;
    var t := Accepted(w, sender, refs, wired, epoch, maxTerm, ops);
    if i == |ops| {
      Untouched(w, t, ops, id, "");
    } else {
      SplitAt(w, t, ops, i);
      var before := ApplyAll(w, t, ops[..i]);
      ObjectStep(before, t, ops[i], id);
      KindOf(ops[i], id);
      Untouched(ApplyOp(before, t, ops[i]).value, t, ops[i + 1..], id, "");
      var after := ApplyAll(w, t, ops);
      EdgesTell(after, id);
      if ops[i].kind == 0 && ops[i].targetKind == 0 { KeyRules(EdgesOf(after.tracked), id); }
    }
  }

  lemma KindOf(op: Op, id: Hash)
    requires TouchesObject(op, id)
    ensures op.kind <= 1
  {
  }

  /** An accepted list applies without a fault. */
  lemma Accepted(w: World, sender: Option<Hash>, refs: set<Hash>, wired: bool,
                 epoch: u64, maxTerm: u64, ops: seq<Op>) returns (t: Terms)
    requires Forest(w.tracked) && |w.tracked| < U32 && |ops| < HALF32
    requires HandleDeclaredOps(w, sender, refs, wired, epoch, maxTerm, ops).1
    ensures sender.Some? && t == Terms(sender.value, refs, wired, epoch, maxTerm) && NeverFaults(w, t, ops)
    ensures HandleDeclaredOps(w, sender, refs, wired, epoch, maxTerm, ops).0 == ApplyAll(w, t, ops)
  {
    hide ApplyAll, NeverFaults, ValidateAll, Forest;
    HandlingIsAtomic(w, sender, refs, wired, epoch, maxTerm, ops);
    t := Terms(sender.value, refs, wired, epoch, maxTerm);
  }

  /** After an accepted list a name is what the last operation on it says of the leaf just
      before it: a registration writes all three fields, a renewal only the expiry, an update
      only the object, a transfer only the owner, and a removal leaves nothing. */
  lemma NamesEndUp(w: World, sender: Option<Hash>, refs: set<Hash>, wired: bool,
                   epoch: u64, maxTerm: u64, ops: seq<Op>, name: string, i: nat)
    requires Forest(w.tracked) && |w.tracked| < U32 && |ops| < HALF32 && i < |ops|
    requires HandleDeclaredOps(w, sender, refs, wired, epoch, maxTerm, ops).1
    requires TouchesName(ops[i], name) && forall j :: i < j < |ops| ==> !TouchesName(ops[j], name)
    ensures sender.Some?
    ensures var t := Terms(sender.value, refs, wired, epoch, maxTerm);
            var was := LeafOf(ApplyAll(w, t, ops[..i]), name);
            var now := LeafOf(HandleDeclaredOps(w, sender, refs, wired, epoch, maxTerm, ops).0, name);
            var op := ops[i];
            && (op.kind == 2 ==> op.objectId.Some?
                                 && now == Some(Leaf(op.objectId.value, sender.value, SafeAdd(epoch, op.term))))
            && (3 <= op.kind ==> was.Some?)
            && (op.kind == 3 ==> now == Some(Leaf(was.value.objectId, was.value.owner,
                                                  SafeAdd(Later(was.value.expiry, epoch), op.term))))
            && (op.kind == 4 ==> op.objectId.Some?
                                 && now == Some(Leaf(op.objectId.value, was.value.owner, was.value.expiry)))
            && (op.kind == 5 ==> op.target.Some?
                                 && now == Some(Leaf(was.value.objectId, op.target.value, was.value.expiry)))
            && (op.kind == 6 ==> now == None)
  {
    hide ApplyOp, ApplyAll, NeverFaults, ValidateAll, Forest, SafeAdd, Affordable;
    var t := Accepted(w, sender, refs, wired, epoch, maxTerm, ops);
    SplitAt(w, t, ops, i);
    var before := ApplyAll(w, t, ops[..i]);
    NameStep(before, t, ops[i], name);
    Untouched(ApplyOp(before, t, ops[i]).value, t, ops[i + 1..], 0, name);
  }

  // ---- A single operation through the handler ---------------------------------------------

  /** The overlays a list passes through, one operation at a time. */
  ghost predicate Passes(w: World, t: Terms, ops: seq<Op>, from: Overlay, os: seq<Overlay>)
  {
    && |os| == |ops| + 1 && os[0] == from
    && forall i :: 0 <= i < |ops| ==> ValidateOp(w, os[i], t, ops[i]) == Some(os[i + 1])
  }

  /** A list is accepted exactly when every operation is, against what the earlier ones staged. */
  lemma {:induction false} ListAcceptedIff(w: World, o: Overlay, t: Terms, ops: seq<Op>)
    ensures ValidateAll(w, o, t, ops).Some? <==> exists os :: Passes(w, t, ops, o, os)
    decreases |ops|
  {
    hide ValidateOp;
    if ops == [] {
      assert Passes(w, t, ops, o, [o]);
    } else {
      var next := ValidateOp(w, o, t, ops[0]);
      if next.Some? {
        ListAcceptedIff(w, next.value, t, ops[1..]);
        if ValidateAll(w, o, t, ops).Some? {
          var os :| Passes(w, t, ops[1..], next.value, os);
          var all := [o] + os;
          forall i | 0 <= i < |ops| ensures ValidateOp(w, all[i], t, ops[i]) == Some(all[i + 1]) {
            if i > 0 { assert ValidateOp(w, os[i - 1], t, ops[1..][i - 1]) == Some(os[i - 1 + 1]); }
          }
          assert Passes(w, t, ops, o, all);
        }
      }
      forall os | Passes(w, t, ops, o, os) ensures ValidateAll(w, o, t, ops).Some? {
        assert ValidateOp(w, os[0], t, ops[0]) == Some(os[0 + 1]);
        forall i | 0 <= i < |ops[1..]| ensures ValidateOp(w, os[1..][i], t, ops[1..][i]) == Some(os[1..][i + 1]) {
          assert ValidateOp(w, os[i + 1], t, ops[i + 1]) == Some(os[i + 1 + 1]);
        }
        assert Passes(w, t, ops[1..], next.value, os[1..]);
      }
    }
  }

  lemma AloneAccepted(w: World, t: Terms, op: Op)
    ensures ValidateAll(w, EMPTY, t, [op]).Some? <==> ValidateOp(w, EMPTY, t, op).Some?
  {
    hide ValidateOp;
    if ValidateOp(w, EMPTY, t, op).Some? {
      assert ValidateAll(w, ValidateOp(w, EMPTY, t, op).value, t, [op][1..]).Some?;
    }
  }

  /** A renewal on its own is accepted exactly when its sender owns the name and the term fits,
      and then the lease runs for exactly that much longer and nothing else changes. */
  lemma RenewalHandled(w: World, sender: Hash, epoch: u64, maxTerm: u64, op: Op)
    requires Forest(w.tracked) && |w.tracked| < U32 && sender != 0 && op.kind == 3 && op.name in w.registry
    requires Later(w.registry[op.name].expiry, epoch) + op.term < WORD && epoch + maxTerm < WORD
    ensures var (after, ok) := HandleDeclaredOps(w, Some(sender), {}, true, epoch, maxTerm, [op]);
            var was := w.registry[op.name];
            var start := if was.expiry > epoch then was.expiry else epoch;
            && (ok <==> was.owner == sender && op.term > 0 && start + op.term <= epoch + maxTerm)
            && (ok ==> after.registry == w.registry[op.name := was.(expiry := start + op.term)]
                       && EdgesOf(after.tracked) == EdgesOf(w.tracked))
  {
    hide Forest, ValidateAll, ValidateOp, ApplyAll, ApplyOp, NeverFaults, EdgesOf;
    var t := Terms(sender, {}, true, epoch, maxTerm);
    AloneAccepted(w, t, op);
    RenewalAccepted(w, t, op);
    if ValidateAll(w, EMPTY, t, [op]).Some? {
      var u := Accepted(w, Some(sender), {}, true, epoch, maxTerm, [op]);
      OneStep(w, t, op);
      RenewalApplied(w, t, op);
    }
  }

  lemma RenewalAccepted(w: World, t: Terms, op: Op)
    requires t.wired && t.sender != 0 && op.kind == 3 && op.name in w.registry
    requires Later(w.registry[op.name].expiry, t.epoch) + op.term < WORD && t.epoch + t.maxTerm < WORD
    ensures var was := w.registry[op.name];
            var start := if was.expiry > t.epoch then was.expiry else t.epoch;
            ValidateOp(w, EMPTY, t, op).Some? <==>
              was.owner == t.sender && op.term > 0 && start + op.term <= t.epoch + t.maxTerm
  {
    hide ValidateOp, Controls;
    NameAcceptedIff(w, EMPTY, t, op);
    assert StagedLeaves(w, EMPTY) == w.registry;
  }

  lemma OneStep(w: World, t: Terms, op: Op)
    requires NeverFaults(w, t, [op])
    ensures ApplyOp(w, t, op).Some? && ApplyAll(w, t, [op]) == ApplyOp(w, t, op).value
  {
    hide ApplyOp;
    assert [op][1..] == [];
  }

  lemma RenewalApplied(w: World, t: Terms, op: Op)
    requires ApplyOp(w, t, op).Some? && op.kind == 3 && op.name in w.registry
    requires Later(w.registry[op.name].expiry, t.epoch) + op.term < WORD
    ensures var was := w.registry[op.name];
            var start := if was.expiry > t.epoch then was.expiry else t.epoch;
            ApplyOp(w, t, op).value == w.(registry := w.registry[op.name := was.(expiry := start + op.term)])
  {
  }
}
