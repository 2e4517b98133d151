/** The tracker, the staged view and the handler as they run: fields updated in place,
    walks as loops, each method proved against its specification function. */
module Ops {
  import opened Common
  import opened Objects
  import opened Domains
  import opened Staged

  class ObjectTracker {
    var entries: Tracked

    method AdjustChildCount(parent: Ref, delta: int)
      modifies this
      ensures entries == Adjust(old(entries), parent, delta)
    {
      if parent.Key? || parent.id !in entries { return; }
      var count := (entries[parent.id].children + delta) % U32;
      entries := entries[parent.id := entries[parent.id].(children := count)];
    }

    method RebindChildCount(was: Option<Ref>, now: Ref)
      modifies this
      ensures entries == Rebind(old(entries), was, now)
    {
      if was.Some? {
        if was.value == now { return; }
        AdjustChildCount(was.value, -1);
      }
      AdjustChildCount(now, 1);
    }

    method TrackObject(id: Hash, version: u64, replication: nat, fees: u64, parent: Ref)
      modifies this
      ensures entries == Track(old(entries), id, version, replication, fees, parent)
    {
      var was := ParentOf(entries, id);
      var selfChildren := Get(entries, id).children;
      entries := entries[id := Entry(version, replication, fees, parent, selfChildren)];
      RebindChildCount(was, parent);
    }

    method SetParent(id: Hash, parent: Ref)
      modifies this
      ensures entries == Objects.SetParent(old(entries), id, parent)
    {
      var entry := Get(entries, id);
      var was := ParentOf(entries, id);
      entries := entries[id := Entry(entry.version, entry.replication, entry.fees, parent, entry.children)];
      RebindChildCount(was, parent);
    }

    method DeleteObject(id: Hash)
      modifies this
      ensures entries == Objects.Delete(old(entries), id)
    {
      var was := ParentOf(entries, id);
      entries := entries - {id};
      if was.Some? {
        AdjustChildCount(was.value, -1);
      } else {
        assert entries == old(entries);
      }
    }

    /** The bounded walk of walk.go. */
    method ControllerOf(id: Hash) returns (r: Option<Hash>)
      ensures r == Controller(EdgesOf(entries), id, WALK_LIMIT)
    {
      var current := id;
      for i := 0 to WALK_LIMIT
        invariant Controller(EdgesOf(entries), id, WALK_LIMIT) == Controller(EdgesOf(entries), current, WALK_LIMIT - i)
      {
        if current !in entries { return None; }
        match entries[current].parent
        case Key(k) => return Some(k);
        case Obj(p) => current := p;
      }
      return None;
    }

    method WouldCycle(id: Hash, parent: Ref) returns (r: bool)
      ensures r == Objects.WouldCycle(EdgesOf(entries), id, parent)
    {
      if parent.Key? { return false; }
      var current := parent.id;
      for i := 0 to WALK_LIMIT
        invariant Cycles(EdgesOf(entries), id, parent.id, WALK_LIMIT)
                  == Cycles(EdgesOf(entries), id, current, WALK_LIMIT - i)
      {
        if current == id || current !in entries { return true; }
        match entries[current].parent
        case Key(_) => return false;
        case Obj(p) => current := p;
      }
      return true;
    }
  }

  class DomainStore {
    var leaves: Registry
  }

  class StagedView {
    const tracker: ObjectTracker
    const store: DomainStore
    const wired: bool
    const epoch: u64
    const maxTerm: u64
    var parents: Edges
    var deleted: set<Hash>
    var childDelta: map<Hash, int>
    var domains: Registry
    var domainRemoved: set<string>

    ghost function Base(): World
      reads this, tracker, store
    {
      World(tracker.entries, store.leaves)
    }

    ghost function State(): Overlay
      reads this
    {
      Overlay(parents, deleted, childDelta, domains, domainRemoved)
    }

    ghost function TermsOf(sender: Hash, refs: set<Hash>): Terms
    {
      Terms(sender, refs, wired, epoch, maxTerm)
    }

    constructor (tracker: ObjectTracker, store: DomainStore, wired: bool, epoch: u64, maxTerm: u64)
      ensures this.tracker == tracker && this.store == store && this.wired == wired
      ensures this.epoch == epoch && this.maxTerm == maxTerm && State() == EMPTY
    {
      this.tracker, this.store, this.wired := tracker, store, wired;
      this.epoch, this.maxTerm := epoch, maxTerm;
      parents, deleted, childDelta := map[], {}, map[];
      domains, domainRemoved := map[], {};
    }

    method GetParent(id: Hash) returns (r: Option<Ref>)
      ensures r == var edges := StagedEdges(Base(), State()); if id in edges then Some(edges[id]) else None
    {
      if id in deleted { return None; }
      if id in parents { return Some(parents[id]); }
      r := ParentOf(tracker.entries, id);
    }

    method GetDomain(name: string) returns (r: Option<Leaf>)
      ensures r == var leaves := StagedLeaves(Base(), State()); if name in leaves then Some(leaves[name]) else None
    {
      if name in domainRemoved { return None; }
      if name in domains { return Some(domains[name]); }
      if name in store.leaves { return Some(store.leaves[name]); }
      return None;
    }

    method ControllerOf(id: Hash) returns (r: Option<Hash>)
      ensures r == Controller(StagedEdges(Base(), State()), id, WALK_LIMIT)
    {
      ghost var edges := StagedEdges(Base(), State());
      hide StagedEdges;
      var current := id;
      for i := 0 to WALK_LIMIT
        invariant Controller(edges, id, WALK_LIMIT) == Controller(edges, current, WALK_LIMIT - i)
      {
        var parent := GetParent(current);
        if parent.None? { return None; }
        match parent.value
        case Key(k) => return Some(k);
        case Obj(p) => current := p;
      }
      return None;
    }

    method WouldCycle(id: Hash, parent: Ref) returns (r: bool)
      ensures r == Objects.WouldCycle(StagedEdges(Base(), State()), id, parent)
    {
      ghost var edges := StagedEdges(Base(), State());
      hide StagedEdges;
      if parent.Key? { return false; }
      var current := parent.id;
      for i := 0 to WALK_LIMIT
        invariant Cycles(edges, id, parent.id, WALK_LIMIT) == Cycles(edges, id, current, WALK_LIMIT - i)
      {
        if current == id { return true; }
        var up := GetParent(current);
        if up.None? { return true; }
        match up.value
        case Key(_) => return false;
        case Obj(p) => current := p;
      }
      return true;
    }

    method Controls(sender: Hash, id: Option<Hash>) returns (ok: bool)
      ensures ok == (id.Some? && Objects.Controls(StagedEdges(Base(), State()), sender, id.value))
    {
      if id.None? { return false; }
      var controller := ControllerOf(id.value);
      ok := controller == Some(sender);
    }

    method AddDelta(parent: Ref, step: int)
      modifies this
      ensures State() == old(State()).(delta := Nudge(old(childDelta), parent, step))
    {
      if parent.Obj? {
        childDelta := childDelta[parent.id := Int32(DeltaOf(childDelta, parent.id) + step)];
      }
    }

    method StageReparent(id: Hash, parent: Ref)
      modifies this
      ensures State() == Staged.StageReparent(old(Base()), old(State()), id, parent)
    {
      hide StagedEdges, Nudge;
      var was := GetParent(id);
      if was.Some? { AddDelta(was.value, -1); }
      parents := parents[id := parent];
      AddDelta(parent, 1);
    }

    method StageDelete(id: Hash)
      modifies this
      ensures State() == Staged.StageDelete(old(Base()), old(State()), id)
    {
      hide StagedEdges, Nudge;
      var was := GetParent(id);
      if was.Some? { AddDelta(was.value, -1); }
      deleted := deleted + {id};
    }

    method ValidateReparent(sender: Hash, op: Op, refs: set<Hash>) returns (ok: bool)
      modifies this
      ensures var r := Staged.ValidateReparent(old(Base()), old(State()), TermsOf(sender, refs), op);
              ok == r.Some? && State() == if ok then r.value else old(State())
    {
      hide StagedEdges, Objects.Controls, Objects.WouldCycle, Staged.StageReparent;
      var held := Controls(sender, op.objectId);
      if !held || op.objectId.value !in refs { return false; }
      var target := TargetOf(op);
      if target.None? { return false; }
      if target.value.Obj? {
        held := Controls(sender, Some(target.value.id));
        if !held { return false; }
      }
      var cycle := WouldCycle(op.objectId.value, target.value);
      if cycle { return false; }
      StageReparent(op.objectId.value, target.value);
      return true;
    }

    method ValidateDelete(sender: Hash, op: Op, refs: set<Hash>) returns (ok: bool)
      modifies this
      ensures var r := Staged.ValidateDelete(old(Base()), old(State()), TermsOf(sender, refs), op);
              ok == r.Some? && State() == if ok then r.value else old(State())
    {
      hide StagedEdges, Objects.Controls, Staged.StageDelete;
      var held := Controls(sender, op.objectId);
      if !held || op.objectId.value !in refs { return false; }
      var staged := Get(tracker.entries, op.objectId.value).children + DeltaOf(childDelta, op.objectId.value);
      if staged > 0 && staged % U32 != 0 { return false; }
      StageDelete(op.objectId.value);
      return true;
    }

    method OwnedDomain(sender: Hash, name: string) returns (r: Option<Leaf>)
      ensures r == var leaves := StagedLeaves(Base(), State());
              if Owns(leaves, sender, name) then Some(leaves[name]) else None
    {
      hide StagedLeaves;
      r := GetDomain(name);
      if r.None? || r.value.owner != sender || sender == ZERO_HASH { return None; }
    }

    method OwnsDomainNamespace(sender: Hash, name: string) returns (ok: bool)
      ensures ok == OwnsNamespace(StagedLeaves(Base(), State()), sender, name, epoch)
    {
      hide StagedLeaves;
      var space := ParentName(name);
      if space.None? { return true; }
      var leaf := OwnedDomain(sender, space.value);
      ok := leaf.Some? && leaf.value.expiry >= epoch;
    }

    method RegisteredLeaf(sender: Hash, op: Op) returns (r: Option<Leaf>)
      requires op.kind == REGISTER
      ensures r == NewLeaf(Base(), State(), TermsOf(sender, {}), op)
    {
      hide StagedEdges, StagedLeaves, Objects.Controls, ValidName, OwnsNamespace;
      if !ValidName(op.name) { return None; }
      var taken := GetDomain(op.name);
      if taken.Some? { return None; }
      var owned := OwnsDomainNamespace(sender, op.name);
      if !owned { return None; }
      var held := Controls(sender, op.objectId);
      if !held { return None; }
      var expiry := DomainExpiry(0, epoch, op.term, maxTerm);
      if expiry.None? { return None; }
      return Some(Leaf(op.objectId.value, sender, expiry.value));
    }

    method RewrittenLeaf(sender: Hash, op: Op) returns (r: Option<Leaf>)
      requires REGISTER < op.kind < DROP
      ensures r == NewLeaf(Base(), State(), TermsOf(sender, {}), op)
    {
      hide StagedEdges, StagedLeaves, Objects.Controls;
      r := OwnedDomain(sender, op.name);
      if r.None? { return; }
      if op.kind == RENEW {
        var expiry := DomainExpiry(r.value.expiry, epoch, op.term, maxTerm);
        if expiry.None? { return None; }
        return Some(r.value.(expiry := expiry.value));
      } else if op.kind == UPDATE {
        var held := Controls(sender, op.objectId);
        if !held { return None; }
        return Some(r.value.(objectId := op.objectId.value));
      } else {
        if op.target.None? || op.target.value == ZERO_HASH { return None; }
        return Some(r.value.(owner := op.target.value));
      }
    }

    method ValidateDomainOp(sender: Hash, op: Op, refs: set<Hash>) returns (ok: bool)
      requires REGISTER <= op.kind <= DROP
      modifies this
      ensures var r := ValidateDomain(old(Base()), old(State()), TermsOf(sender, refs), op);
              ok == r.Some? && State() == if ok then r.value else old(State())
    {
      RefsDoNotMatter(Base(), State(), TermsOf(sender, refs), TermsOf(sender, {}), op);
      hide StagedEdges, StagedLeaves, NewLeaf;
      if !wired { return false; }
      if op.kind == DROP {
        var leaf := OwnedDomain(sender, op.name);
        if leaf.None? { return false; }
        domains := domains[op.name := Leaf(ZERO_HASH, ZERO_HASH, 0)];
        domainRemoved := domainRemoved + {op.name};
        return true;
      }
      var leaf;
      if op.kind == REGISTER { leaf := RegisteredLeaf(sender, op); } else { leaf := RewrittenLeaf(sender, op); }
      if leaf.None? { return false; }
      domains := domains[op.name := leaf.value];
      domainRemoved := domainRemoved - {op.name};
      return true;
    }

    method Validate(sender: Hash, op: Op, refs: set<Hash>) returns (ok: bool)
      modifies this
      ensures var r := ValidateOp(old(Base()), old(State()), TermsOf(sender, refs), op);
              ok == r.Some? && State() == if ok then r.value else old(State())
    {
      hide Staged.ValidateReparent, Staged.ValidateDelete, ValidateDomain;
      if op.kind > DROP { return false; }
      if op.kind == REPARENT {
        ok := ValidateReparent(sender, op, refs);
      } else if op.kind == DELETE {
        ok := ValidateDelete(sender, op, refs);
      } else {
        ok := ValidateDomainOp(sender, op, refs);
      }
    }
  }

  lemma RefsDoNotMatter(w: World, o: Overlay, t: Terms, t': Terms, op: Op)
    requires t' == t.(refs := t'.refs)
    ensures NewLeaf(w, o, t, op) == NewLeaf(w, o, t', op)
  {
  }

  class Executor {
    const tracker: ObjectTracker
    const store: DomainStore
    const wired: bool

    constructor (tracker: ObjectTracker, store: DomainStore, wired: bool)
      ensures this.tracker == tracker && this.store == store && this.wired == wired
    {
      this.tracker, this.store, this.wired := tracker, store, wired;
    }

    ghost function Now(): World
      reads tracker, store
    {
      World(tracker.entries, store.leaves)
    }

    /** The effect of one validated operation on the real stores. */
    method Apply(t: Terms, op: Op)
      modifies tracker, store
      ensures Now() == var r := ApplyOp(old(Now()), t, op); if r.Some? then r.value else old(Now())
    {
      hide Objects.SetParent, Objects.Delete, DomainExpiry;
      if op.kind == REPARENT {
        var target := TargetOf(op);
        if op.objectId.Some? && target.Some? { tracker.SetParent(op.objectId.value, target.value); }
      } else if op.kind == DELETE {
        if op.objectId.Some? && op.objectId.value in tracker.entries { tracker.DeleteObject(op.objectId.value); }
      } else if op.kind == DROP {
        if op.name in store.leaves { store.leaves := store.leaves - {op.name}; }
      } else {
        var leaf := WrittenLeaf(store.leaves, t, op);
        if leaf.Some? { store.leaves := store.leaves[op.name := leaf.value]; }
      }
    }

    /** Validate the whole list against a staged view, then apply it: all or nothing. */
    method HandleDeclaredOps(sender: Option<Hash>, refs: set<Hash>, epoch: u64, maxTerm: u64, ops: seq<Op>)
      returns (ok: bool)
      modifies tracker, store
      ensures (Now(), ok) == Staged.HandleDeclaredOps(old(Now()), sender, refs, wired, epoch, maxTerm, ops)
    {
      if sender.None? || sender.value == ZERO_HASH { return false; }
      if ops == [] { return false; }
      var t := Terms(sender.value, refs, wired, epoch, maxTerm);
      ok := Rehearse(t, ops);
      if !ok { return; }
      hide ApplyOp, ValidateAll;
      for i := 0 to |ops|
        invariant ApplyAll(Now(), t, ops[i..]) == ApplyAll(old(Now()), t, ops)
      {
        assert ops[i..][0] == ops[i] && ops[i..][1..] == ops[i + 1..];
        Apply(t, ops[i]);
      }
    }

    method Rehearse(t: Terms, ops: seq<Op>) returns (ok: bool)
      requires t.wired == wired
      ensures ok == ValidateAll(Now(), EMPTY, t, ops).Some?
    {
      hide ValidateOp;
      var staged := new StagedView(tracker, store, wired, t.epoch, t.maxTerm);
      for i := 0 to |ops|
        invariant fresh(staged) && staged.tracker == tracker && staged.store == store
        invariant staged.TermsOf(t.sender, t.refs) == t && Now() == old(Now())
        invariant ValidateAll(Now(), EMPTY, t, ops) == ValidateAll(Now(), staged.State(), t, ops[i..])
      {
        assert ops[i..][0] == ops[i] && ops[i..][1..] == ops[i + 1..];
        ok := staged.Validate(t.sender, ops[i], t.refs);
        if !ok { return; }
      }
      return true;
    }
  }
}
