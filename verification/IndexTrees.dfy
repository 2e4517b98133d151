/** The index as it is maintained (hierarchy_trees.go, manager.go): edits move leaves in
    place, and after any edits every root equals the one rebuilt from the edge, domain and
    validator maps alone. */
module IndexTrees {
  import opened Common
  import opened Merkle
  import opened MerkleTree
  import opened IndexModel

  type ChildSets = map<Position, set<Position>>

  ghost function Grouped(edges: Edges): ChildSets
  {
    map p | p in Parents(edges) :: ChildrenOf(edges, p)
  }

  function Put(sets: ChildSets, parent: Position, child: Position): ChildSets
  {
    sets[parent := (if parent in sets then sets[parent] else {}) + {child}]
  }

  /** A parent whose last child leaves disappears. */
  function Drop(sets: ChildSets, parent: Position, child: Position): ChildSets
  {
    if parent !in sets then sets
    else if sets[parent] - {child} == {} then sets - {parent}
    else sets[parent := sets[parent] - {child}]
  }

  lemma GroupedAt(edges: Edges, p: Position)
    ensures p in Grouped(edges) <==> ChildrenOf(edges, p) != {}
    ensures p in Grouped(edges) ==> Grouped(edges)[p] == ChildrenOf(edges, p)
  {
    if ChildrenOf(edges, p) != {} {
      var c :| c in ChildrenOf(edges, p);
      assert edges[c].parent in Parents(edges);
    }
    if p in Parents(edges) {
      var c :| c in edges && edges[c].parent == p;
      assert c in ChildrenOf(edges, p);
    }
  }

  /** Child sets agreeing with the edges parent by parent are the grouping. */
  lemma GroupedIs(edges: Edges, sets: ChildSets)
    requires forall p :: p in sets <==> ChildrenOf(edges, p) != {}
    requires forall p :: p in sets ==> sets[p] == ChildrenOf(edges, p)
    ensures sets == Grouped(edges)
  {
    hide Grouped, ChildrenOf;
    forall p ensures p in sets <==> p in Grouped(edges) { GroupedAt(edges, p); }
    forall p | p in sets ensures sets[p] == Grouped(edges)[p] { GroupedAt(edges, p); }
    assert sets.Keys == Grouped(edges).Keys;
  }

  lemma ChildrenAfterDrop(edges: Edges, child: Position, p: Position)
    ensures ChildrenOf(edges - {child}, p) == ChildrenOf(edges, p) - {child}
  {
  }

  lemma ChildrenAfterPut(edges: Edges, child: Position, leaf: ParentLeaf, p: Position)
    requires child !in edges
    ensures ChildrenOf(edges[child := leaf], p) == ChildrenOf(edges, p) + if p == leaf.parent then {child} else {}
  {
  }

  lemma DropGrouped(edges: Edges, child: Position)
    requires child in edges
    ensures Drop(Grouped(edges), edges[child].parent, child) == Grouped(edges - {child})
  {
    var was := edges[child].parent;
    var sets := Drop(Grouped(edges), was, child);
    forall p ensures p in sets <==> ChildrenOf(edges - {child}, p) != {} {
      GroupedAt(edges, p);
      GroupedAt(edges, was);
      ChildrenAfterDrop(edges, child, p);
    }
    forall p | p in sets ensures sets[p] == ChildrenOf(edges - {child}, p) {
      GroupedAt(edges, p);
      ChildrenAfterDrop(edges, child, p);
    }
    GroupedIs(edges - {child}, sets);
  }

  lemma PutGrouped(edges: Edges, child: Position, leaf: ParentLeaf)
    requires child !in edges
    ensures Put(Grouped(edges), leaf.parent, child) == Grouped(edges[child := leaf])
  {
    var sets := Put(Grouped(edges), leaf.parent, child);
    forall p ensures p in sets <==> ChildrenOf(edges[child := leaf], p) != {} {
      GroupedAt(edges, p);
      ChildrenAfterPut(edges, child, leaf, p);
    }
    forall p | p in sets ensures sets[p] == ChildrenOf(edges[child := leaf], p) {
      GroupedAt(edges, p);
      ChildrenAfterPut(edges, child, leaf, p);
    }
    GroupedIs(edges[child := leaf], sets);
  }

  /** The subtree root of every parent that has children. */
  ghost function Tops(sets: ChildSets): Entries<Digest<Present>>
  {
    map p | p in sets :: SubtreeRoot(sets[p])
  }

  lemma TopsOfGrouped(edges: Edges)
    ensures Tops(Grouped(edges)) == TopEntries(edges)
  {
    hide SubtreeRoot;
  }

  /** Build a fresh subtree over a child set and hash it. */
  method BuildSubtree(children: set<Position>) returns (root: Digest<Present>)
    ensures root == SubtreeRoot(children)
  {
    hide Smt.Valid, PresentEntries, Root;
    var sub := new Smt<Present>();
    var todo := children;
    NoneEntered(children);
    while todo != {}
      invariant fresh(sub) && sub.Valid() && todo <= children
      invariant sub.entries == PresentEntries(children - todo)
      decreases todo
    {
      var c :| c in todo;
      sub.Insert(c, Present);
      OneMoreEntered(children, todo, c);
      todo := todo - {c};
    }
    assert children - {} == children;
    root := sub.RootHash();
  }

  lemma NoneEntered(children: set<Position>)
    ensures PresentEntries(children - children) == map[]
  {
  }

  lemma OneMoreEntered(children: set<Position>, todo: set<Position>, c: Position)
    requires c in todo && todo <= children
    ensures PresentEntries(children - (todo - {c})) == PresentEntries(children - todo)[c := Present]
  {
  }

  /** The client's rebuild of a child list: refused when an identifier repeats, so the
      list's length is authenticated too. */
  method ChildrenSubtreeRoot(children: seq<Position>) returns (root: Digest<Present>, ok: bool)
    ensures ok <==> forall i, j :: 0 <= i < j < |children| ==> children[i] != children[j]
    ensures ok ==> root == SubtreeRoot(set c | c in children) && |set c | c in children| == |children|
  {
    hide SubtreeRoot;
    var listed, distinct := DistinctSet(children);
    if !distinct {
      return Zero, false;
    }
    assert listed == set c | c in children;
    root := BuildSubtree(listed);
    ok := true;
  }

  /** Changing one parent's set changes one top leaf. */
  lemma TopsElsewhere(before: ChildSets, after: ChildSets, parent: Position)
    requires after - {parent} == before - {parent}
    ensures parent !in after ==> Tops(before) - {parent} == Tops(after)
    ensures parent in after ==> Tops(before)[parent := SubtreeRoot(after[parent])] == Tops(after)
  {
    hide SubtreeRoot;
    assert forall p :: p != parent ==>
      (p in before <==> p in before - {parent}) && (p in after <==> p in after - {parent});
    forall p | p in after && p != parent ensures p in before && before[p] == after[p] {
      assert (after - {parent})[p] == (before - {parent})[p];
    }
    if parent in after {
      assert Tops(before)[parent := SubtreeRoot(after[parent])].Keys == Tops(after).Keys;
    } else {
      assert (Tops(before) - {parent}).Keys == Tops(after).Keys;
    }
  }

  lemma OneHop(edges: Edges, current: Position, limit: nat, hops: seq<Hop>, hop: Hop)
    requires limit > 0 && hop == Hop(current, Lookup(edges, current), Prove(edges, current))
    ensures hops + ServedWalk(edges, current, limit) ==
              if current !in edges || edges[current].keyRoot then hops + [hop]
              else hops + [hop] + ServedWalk(edges, edges[current].parent, limit - 1)
  {
    hide Prove;
    if current in edges && !edges[current].keyRoot {
      var rest := ServedWalk(edges, edges[current].parent, limit - 1);
      assert hops + ([hop] + rest) == hops + [hop] + rest;
    }
  }

  lemma NoHops(edges: Edges, current: Position, hops: seq<Hop>)
    ensures hops + ServedWalk(edges, current, 0) == hops
  {
  }

  class Hierarchy {
    const parents: Smt<ParentLeaf>
    const top: Smt<Digest<Present>>
    var children: ChildSets

    /** Two views of one edge set. */
    ghost predicate Valid()
      reads this, parents, top
    {
      && parents.Valid() && top.Valid()
      && WellKeyed(parents.entries)
      && children == Grouped(parents.entries)
      && top.entries == Tops(children)
    }

    constructor ()
      ensures Valid() && parents.entries == map[]
      ensures fresh(parents) && fresh(top)
    {
      parents := new Smt<ParentLeaf>();
      top := new Smt<Digest<Present>>();
      children := map[];
    }

    /** Recompute a parent's subtree root, or drop its leaf when it has no child. */
    method SyncTop(parent: Position, ghost before: ChildSets)
      requires top.Valid() && top.entries == Tops(before)
      requires children - {parent} == before - {parent}
      modifies top
      ensures top.Valid() && top.entries == Tops(children)
    {
      hide SubtreeRoot;
      TopsElsewhere(before, children, parent);
      if parent !in children {
        top.Delete(parent);
        return;
      }
      var root := BuildSubtree(children[parent]);
      top.Insert(parent, root);
    }

    method AddChild(parent: Position, child: Position)
      requires top.Valid() && top.entries == Tops(children)
      modifies this, top
      ensures top.Valid() && top.entries == Tops(children)
      ensures children == Put(old(children), parent, child)
    {
      ghost var before := children;
      assert Put(before, parent, child) - {parent} == before - {parent};
      children := Put(children, parent, child);
      SyncTop(parent, before);
    }

    method RemoveChild(parent: Position, child: Position)
      requires top.Valid() && top.entries == Tops(children)
      modifies this, top
      ensures top.Valid() && top.entries == Tops(children)
      ensures children == Drop(old(children), parent, child)
    {
      if parent !in children {
        return;
      }
      ghost var before := children;
      assert Drop(before, parent, child) - {parent} == before - {parent};
      children := Drop(children, parent, child);
      SyncTop(parent, before);
    }

    /** Insert or move an edge in both trees at once. */
    method SetEdge(child: Position, keyRoot: bool, parent: Position)
      requires Valid()
      modifies this, parents, top
      ensures Valid()
      ensures parents.entries == old(parents.entries)[child := ParentLeaf(child, keyRoot, parent)]
    {
      hide Grouped, Tops, Smt.Valid;
      ghost var edges := parents.entries;
      ghost var rest := edges - {child};
      if child in parents.entries {
        DropGrouped(edges, child);
        RemoveChild(parents.entries[child].parent, child);
      } else {
        assert rest == edges;
      }
      PutGrouped(rest, child, ParentLeaf(child, keyRoot, parent));
      assert rest[child := ParentLeaf(child, keyRoot, parent)] == edges[child := ParentLeaf(child, keyRoot, parent)];
      parents.Insert(child, ParentLeaf(child, keyRoot, parent));
      AddChild(parent, child);
    }

    /** The proved hops upward from a child, at most WALK_LIMIT of them. */
    method WalkEdges(child: Position) returns (hops: seq<Hop>)
      requires Valid()
      ensures hops == ServedWalk(parents.entries, child, WALK_LIMIT)
      ensures VerifiedAncestry(Root(parents.entries), child, hops) == Ancestry(parents.entries, child, WALK_LIMIT)
    {
      hide Root, Prove, Smt.Valid, ServedWalk, VerifiedAncestry, Ancestry, Accepts, Grouped, Tops;
      ghost var edges := parents.entries;
      AncestryIsProvable(edges, child, WALK_LIMIT);
      hops := [];
      var current := child;
      for i := 0 to WALK_LIMIT
        invariant hops + ServedWalk(edges, current, WALK_LIMIT - i) == ServedWalk(edges, child, WALK_LIMIT)
      {
        var proof := parents.ProveKey(current);
        var hop := Hop(current, Lookup(parents.entries, current), proof);
        OneHop(edges, current, WALK_LIMIT - i, hops, hop);
        hops := hops + [hop];
        if current !in parents.entries { return; }
        if parents.entries[current].keyRoot { return; }
        current := parents.entries[current].parent;
      }
      NoHops(edges, current, hops);
    }

    /** The two roots are those of one edge set. */
    method EdgeRoots() returns (p: Digest<ParentLeaf>, c: Digest<Digest<Present>>)
      requires Valid()
      modifies parents`root, top`root
      ensures Valid() && parents.entries == old(parents.entries)
      ensures p == Root(parents.entries) && c == Root(TopEntries(parents.entries))
    {
      TopsOfGrouped(parents.entries);
      hide Grouped, Tops, TopEntries, Smt.Valid, Root;
      p := parents.RootHash();
      c := top.RootHash();
    }

    method RemoveEdge(child: Position)
      requires Valid()
      modifies this, parents, top
      ensures Valid()
      ensures parents.entries == old(parents.entries) - {child}
    {
      hide Grouped, Tops, Smt.Valid;
      if child in parents.entries {
        DropGrouped(parents.entries, child);
        RemoveChild(parents.entries[child].parent, child);
      } else {
        assert parents.entries - {child} == parents.entries;
      }
      parents.Delete(child);
    }
  }

  function EdgesOf(entries: seq<ParentLeaf>): Edges
  {
    if entries == [] then map[]
    else var e := entries[|entries| - 1]; EdgesOf(entries[..|entries| - 1])[e.child := e]
  }

  function TableOf<V>(entries: seq<(Position, V)>): Entries<V>
  {
    if entries == [] then map[]
    else var e := entries[|entries| - 1]; TableOf(entries[..|entries| - 1])[e.0 := e.1]
  }

  method BuildTable<V(==)>(entries: seq<(Position, V)>) returns (smt: Smt<V>)
    ensures fresh(smt) && smt.Valid() && smt.entries == TableOf(entries)
  {
    smt := new Smt<V>();
    for i := 0 to |entries|
      invariant fresh(smt) && smt.Valid() && smt.entries == TableOf(entries[..i])
    {
      assert entries[..i + 1][..i] == entries[..i];
      smt.Insert(entries[i].0, entries[i].1);
    }
    assert entries[..|entries|] == entries;
  }

  /** Owner of the trees and of the anchored root history. */
  class IndexManager {
    var hierarchy: Hierarchy
    var domain: Smt<DomainLeaf>
    var validator: Smt<nat>
    var history: History<Roots>

    ghost function Repr(): set<object>
      reads this, hierarchy
    {
      {this, hierarchy, hierarchy.parents, hierarchy.top, domain, validator}
    }

    ghost predicate Valid()
      reads this, hierarchy, hierarchy.parents, hierarchy.top, domain, validator
    {
      hierarchy.Valid() && domain.Valid() && validator.Valid() && Consistent(history)
    }

    ghost function State(): Manager
      reads this, hierarchy, hierarchy.parents, domain, validator
    {
      Manager(Trees(hierarchy.parents.entries, domain.entries, validator.entries), history)
    }

    constructor ()
      ensures Valid() && State() == Manager(Trees(map[], map[], map[]), History(map[], [], map[], false, None))
    {
      hierarchy := new Hierarchy();
      domain := new Smt<DomainLeaf>();
      validator := new Smt<nat>();
      history := History(map[], [], map[], false, None);
    }

    method Apply(e: Event)
      requires Valid() && !e.RebuildValidators?
      modifies Repr()
      ensures Valid() && State() == Handle(old(State()), e)
      ensures Repr() == old(Repr())
    {
      hide Consistent, RootsOf, Record, Hierarchy.Valid, Smt.Valid;
      match e {
        case ApplyEdge(c, k, p) => hierarchy.SetEdge(c, k, p);
        case RemoveObject(c) => hierarchy.RemoveEdge(c);
        case ApplyDomain(n, leaf) => domain.Insert(n, leaf);
        case RemoveDomain(n) => domain.Delete(n);
        case SetFrontier(round) =>
          var roots := CurrentRoots();
          RecordKeepsConsistent(history, round, roots);
          history := Record(history, round, roots);
      }
    }

    /** The four component roots, read as one set. */
    method CurrentRoots() returns (roots: Roots)
      requires Valid()
      modifies hierarchy.parents`root, hierarchy.top`root, domain`root, validator`root
      ensures Valid() && State() == old(State())
      ensures roots == RootsOf(State().trees)
    {
      hide Consistent, Hierarchy.Valid, Smt.Valid, TopEntries, Root;
      var d := domain.RootHash();
      var p, c := hierarchy.EdgeRoots();
      var v := validator.RootHash();
      roots := Roots(d, p, c, v);
    }

    /** Replace the validator tree; the next recorded round becomes a checkpoint. */
    method Rebuild(entries: seq<(Position, nat)>)
      requires Valid()
      modifies this`validator, this`history
      ensures Valid() && State() == Handle(old(State()), RebuildValidators(TableOf(entries)))
      ensures fresh(validator)
    {
      hide Hierarchy.Valid;
      validator := BuildTable(entries);
      history := history.(pending := true);
    }

    /** Rebuild every tree from persisted lists; the history is left alone. */
    method BuildFromState(edges: seq<ParentLeaf>, domains: seq<(Position, DomainLeaf)>,
                          validators: seq<(Position, nat)>)
      requires Valid()
      modifies this`hierarchy, this`domain, this`validator
      ensures Valid() && history == old(history)
      ensures State().trees == Trees(EdgesOf(edges), TableOf(domains), TableOf(validators))
      ensures fresh(Repr() - {this})
    {
      hide Consistent, Hierarchy.Valid, Smt.Valid;
      var h := new Hierarchy();
      for i := 0 to |edges|
        invariant fresh(h) && fresh(h.parents) && fresh(h.top) && h.Valid()
        invariant h.parents.entries == EdgesOf(edges[..i])
        modifies h, h.parents, h.top
      {
        assert edges[..i + 1][..i] == edges[..i];
        h.SetEdge(edges[i].child, edges[i].keyRoot, edges[i].parent);
      }
      assert edges[..|edges|] == edges;
      var d := BuildTable(domains);
      var v := BuildTable(validators);
      hierarchy, domain, validator := h, d, v;
    }
  }
}
