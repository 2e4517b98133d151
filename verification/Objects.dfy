/** Tracked objects and their parent hierarchy (internal/consensus/tracker.go, walk.go). */
module Objects {
  import opened Common

  const U32: int := 0x1_0000_0000

  type u32 = x: int | 0 <= x < U32

  /** A parent reference: an account key, or another tracked object. */
  datatype Ref = Key(key: Hash) | Obj(id: Hash)

  datatype Entry = Entry(version: u64, replication: nat, fees: u64, parent: Ref, children: u32)

  type Tracked = map<Hash, Entry>

  type Edges = map<Hash, Ref>

  const WALK_LIMIT: nat := 256

  function EdgesOf(t: Tracked): Edges
  {
    map id | id in t :: t[id].parent
  }

  // ---- Walks ----------------------------------------------------------------

  /** The key at the end of a walk of fewer than `limit` edges. */
  function Controller(edges: Edges, id: Hash, limit: nat): Option<Hash>
    decreases limit
  {
    if limit == 0 || id !in edges then None
    else match edges[id]
      case Key(k) => Some(k)
      case Obj(p) => Controller(edges, p, limit - 1)
  }

  /** The walk up from `current` meets `id`, leaves the tracker, or is too long. */
  predicate Cycles(edges: Edges, id: Hash, current: Hash, limit: nat)
    decreases limit
  {
    || limit == 0
    || current == id
    || current !in edges
    || (edges[current].Obj? && Cycles(edges, id, edges[current].id, limit - 1))
  }

  predicate WouldCycle(edges: Edges, id: Hash, parent: Ref)
  {
    parent.Obj? && Cycles(edges, id, parent.id, WALK_LIMIT)
  }

  predicate Controls(edges: Edges, sender: Hash, id: Hash)
  {
    Controller(edges, id, WALK_LIMIT) == Some(sender)
  }

  /** The key the unbounded walk ends at. */
  ghost predicate Rules(edges: Edges, key: Hash, id: Hash)
  {
    exists n: nat :: Controller(edges, id, n) == Some(key)
  }

  /** Every object's walk ends at a key: no cycle, no dangling parent. */
  ghost predicate Rooted(edges: Edges)
  {
    forall id :: id in edges ==> exists k: Hash :: Rules(edges, k, id)
  }

  lemma {:induction false} LongerWalk(edges: Edges, id: Hash, m: nat, n: nat)
    requires m <= n && Controller(edges, id, m).Some?
    ensures Controller(edges, id, n) == Controller(edges, id, m)
    decreases m
  {
    if edges[id].Obj? { LongerWalk(edges, edges[id].id, m - 1, n - 1); }
  }

  /** A walk has one end: a bounded walk that succeeds returns the unbounded one's key. */
  lemma RulerIsUnique(edges: Edges, j: Hash, k: Hash, id: Hash)
    requires Rules(edges, j, id) && Rules(edges, k, id)
    ensures j == k
  {
    var m: nat :| Controller(edges, id, m) == Some(j);
    var n: nat :| Controller(edges, id, n) == Some(k);
    if m <= n { LongerWalk(edges, id, m, n); } else { LongerWalk(edges, id, n, m); }
  }

  lemma ParentRules(edges: Edges, k: Hash, id: Hash)
    requires id in edges && edges[id].Obj?
    ensures Rules(edges, k, edges[id].id) <==> Rules(edges, k, id)
  {
    if n: nat :| Controller(edges, edges[id].id, n) == Some(k) {
      assert Controller(edges, id, n + 1) == Some(k);
    }
    if n: nat :| Controller(edges, id, n) == Some(k) {
      assert Controller(edges, edges[id].id, n - 1) == Some(k);
    }
  }

  lemma KeyRules(edges: Edges, id: Hash)
    requires id in edges && edges[id].Key?
    ensures Rules(edges, edges[id].key, id)
  {
    assert Controller(edges, id, 1) == Some(edges[id].key);
  }

  lemma RuledIsTracked(edges: Edges, k: Hash, id: Hash)
    requires Rules(edges, k, id)
    ensures id in edges
  {
  }

  /** In a rooted hierarchy every object parent is tracked. */
  lemma ParentsAreTracked(edges: Edges, id: Hash)
    requires Rooted(edges) && id in edges && edges[id].Obj?
    ensures edges[id].id in edges
  {
    var k: Hash :| Rules(edges, k, id);
    ParentRules(edges, k, id);
  }

  // ---- Changing one edge -----------------------------------------------------

  /** A walk that avoids `id` is not affected by moving `id`. */
  lemma {:induction false} AvoidingWalk(edges: Edges, id: Hash, parent: Ref, from: Hash, limit: nat)
    requires !Cycles(edges, id, from, limit)
    ensures Controller(edges, from, limit).Some?
    ensures Controller(edges[id := parent], from, limit) == Controller(edges, from, limit)
    decreases limit
  {
    if edges[from].Obj? { AvoidingWalk(edges, id, parent, edges[from].id, limit - 1); }
  }

  /** The walk up from `x` passes through `id` before it ends. */
  ghost predicate Above(edges: Edges, id: Hash, x: Hash, n: nat)
    decreases n
  {
    x == id || (n > 0 && x in edges && edges[x].Obj? && Above(edges, id, edges[x].id, n - 1))
  }

  /** Where the moved object now leads. */
  ghost predicate Lands(edges: Edges, id: Hash, parent: Ref, k: Hash)
  {
    match parent
    case Key(key) => k == key
    case Obj(p) => exists n: nat :: !Cycles(edges, id, p, n) && Controller(edges, p, n) == Some(k)
  }

  lemma MovedRules(edges: Edges, id: Hash, parent: Ref, k: Hash)
    requires Lands(edges, id, parent, k)
    ensures Rules(edges[id := parent], k, id)
  {
    var edges' := edges[id := parent];
    match parent
    case Key(key) => KeyRules(edges', id);
    case Obj(p) =>
      var n: nat :| !Cycles(edges, id, p, n) && Controller(edges, p, n) == Some(k);
      AvoidingWalk(edges, id, parent, p, n);
      assert Rules(edges', k, p);
      ParentRules(edges', k, id);
  }

  /** After a move, everything below the moved object follows it and everything else
      keeps its key. */
  lemma {:induction false} MoveRules(edges: Edges, id: Hash, parent: Ref, k: Hash, x: Hash, was: Hash, n: nat)
    requires Lands(edges, id, parent, k) && Controller(edges, x, n) == Some(was)
    ensures Rules(edges[id := parent], if Above(edges, id, x, n) then k else was, x)
    decreases n
  {
    var edges' := edges[id := parent];
    if x == id {
      MovedRules(edges, id, parent, k);
    } else {
      match edges[x]
      case Key(_) => KeyRules(edges', x);
      case Obj(p) =>
        MoveRules(edges, id, parent, k, p, was, n - 1);
        ParentRules(edges', if Above(edges, id, p, n - 1) then k else was, x);
    }
  }

  /** Moving an object under a key, or under an object whose walk avoids it, keeps the
      hierarchy rooted. */
  lemma MoveKeepsRooted(edges: Edges, id: Hash, parent: Ref, k: Hash)
    requires Rooted(edges) && Lands(edges, id, parent, k)
    ensures Rooted(edges[id := parent])
  {
    var edges' := edges[id := parent];
    forall x | x in edges' ensures exists j: Hash :: Rules(edges', j, x) {
      if x == id {
        MovedRules(edges, id, parent, k);
      } else {
        var was: Hash :| Rules(edges, was, x);
        var n: nat :| Controller(edges, x, n) == Some(was);
        MoveRules(edges, id, parent, k, x, was, n);
      }
    }
  }

  /** The reparent check is exactly what a move needs. */
  lemma NoCycleLands(edges: Edges, id: Hash, parent: Ref)
    requires !WouldCycle(edges, id, parent)
    ensures exists k: Hash :: Lands(edges, id, parent, k)
  {
    match parent
    case Key(key) => assert Lands(edges, id, parent, key);
    case Obj(p) =>
      AvoidingWalk(edges, id, parent, p, WALK_LIMIT);
      var k := Controller(edges, p, WALK_LIMIT).value;
      assert Lands(edges, id, parent, k);
  }

  // ---- Removing a childless object --------------------------------------------

  ghost predicate Childless(edges: Edges, id: Hash)
  {
    forall x :: x in edges && edges[x] == Obj(id) ==> x == id
  }

  lemma {:induction false} RemoveRules(edges: Edges, id: Hash, x: Hash, n: nat)
    requires Childless(edges, id) && x != id && Controller(edges, x, n).Some?
    ensures Controller(edges - {id}, x, n) == Controller(edges, x, n)
    decreases n
  {
    if edges[x].Obj? {
      assert edges[x].id != id;
      RemoveRules(edges, id, edges[x].id, n - 1);
    }
  }

  lemma RemoveKeepsRooted(edges: Edges, id: Hash)
    requires Rooted(edges) && Childless(edges, id)
    ensures Rooted(edges - {id})
  {
    forall x | x in edges - {id} ensures exists k: Hash :: Rules(edges - {id}, k, x) {
      var k: Hash :| Rules(edges, k, x);
      var n: nat :| Controller(edges, x, n) == Some(k);
      RemoveRules(edges, id, x, n);
      assert Rules(edges - {id}, k, x);
    }
  }

  // ---- Child counts ------------------------------------------------------------

  function ChildrenOf(edges: Edges, id: Hash): set<Hash>
  {
    set x | x in edges && edges[x] == Obj(id)
  }

  /** Every stored count is the true number of children, as a 32-bit counter holds it. */
  ghost predicate Counted(t: Tracked)
  {
    forall id :: id in t ==> t[id].children == |ChildrenOf(EdgesOf(t), id)| % U32
  }

  /** With fewer than 2^32 objects a zero count means no child. */
  lemma ZeroCountIsChildless(t: Tracked, id: Hash)
    requires Counted(t) && |t| < U32 && id in t
    ensures t[id].children == |ChildrenOf(EdgesOf(t), id)|
    ensures t[id].children == 0 ==> Childless(EdgesOf(t), id)
  {
    var edges := EdgesOf(t);
    var children := ChildrenOf(edges, id);
    SubsetSize(children, t.Keys);
    SmallCount(|children|);
    hide EdgesOf;
    assert forall x :: x in edges && edges[x] == Obj(id) ==> x in children;
  }

  lemma SmallCount(n: nat)
    requires n < U32
    ensures n % U32 == n
  {
  }

  // ---- Tracker operations as functions ------------------------------------------

  function Shift(count: u32, delta: int): u32
  {
    (count + delta) % U32
  }

  /** Move an object parent's own counter; keys and untracked parents have none. */
  function Adjust(t: Tracked, parent: Ref, delta: int): Tracked
  {
    if parent.Obj? && parent.id in t
    then t[parent.id := t[parent.id].(children := Shift(t[parent.id].children, delta))]
    else t
  }

  function Rebind(t: Tracked, was: Option<Ref>, now: Ref): Tracked
  {
    if was == Some(now) then t
    else Adjust(if was.Some? then Adjust(t, was.value, -1) else t, now, 1)
  }

  function ParentOf(t: Tracked, id: Hash): Option<Ref>
  {
    if id in t then Some(t[id].parent) else None
  }

  function Blank(): Entry
  {
    Entry(0, 0, 0, Key(ZERO_HASH), 0)
  }

  function Get(t: Tracked, id: Hash): Entry
  {
    if id in t then t[id] else Blank()
  }

  function Track(t: Tracked, id: Hash, version: u64, replication: nat, fees: u64, parent: Ref): Tracked
  {
    Rebind(t[id := Entry(version, replication, fees, parent, Get(t, id).children)], ParentOf(t, id), parent)
  }

  function SetParent(t: Tracked, id: Hash, parent: Ref): Tracked
  {
    Rebind(t[id := Get(t, id).(parent := parent)], ParentOf(t, id), parent)
  }

  function Delete(t: Tracked, id: Hash): Tracked
  {
    if id in t then Adjust(t - {id}, t[id].parent, -1) else t
  }

  /** Counters aside, an adjustment changes nothing. */
  lemma AdjustEdges(t: Tracked, parent: Ref, delta: int)
    ensures EdgesOf(Adjust(t, parent, delta)) == EdgesOf(t) && Adjust(t, parent, delta).Keys == t.Keys
    ensures forall id :: id in t ==>
              Adjust(t, parent, delta)[id] ==
                t[id].(children := if parent == Obj(id) then Shift(t[id].children, delta) else t[id].children)
  {
  }

  lemma SetParentEffect(t: Tracked, id: Hash, parent: Ref)
    ensures EdgesOf(SetParent(t, id, parent)) == EdgesOf(t)[id := parent]
    ensures SetParent(t, id, parent).Keys == t.Keys + {id}
  {
    var base := t[id := Get(t, id).(parent := parent)];
    assert EdgesOf(base) == EdgesOf(t)[id := parent];
    RebindEdges(base, ParentOf(t, id), parent);
  }

  lemma TrackEffect(t: Tracked, id: Hash, version: u64, replication: nat, fees: u64, parent: Ref)
    ensures EdgesOf(Track(t, id, version, replication, fees, parent)) == EdgesOf(t)[id := parent]
    ensures Track(t, id, version, replication, fees, parent).Keys == t.Keys + {id}
  {
    var base := t[id := Entry(version, replication, fees, parent, Get(t, id).children)];
    assert EdgesOf(base) == EdgesOf(t)[id := parent];
    RebindEdges(base, ParentOf(t, id), parent);
  }

  lemma RebindEdges(t: Tracked, was: Option<Ref>, now: Ref)
    ensures EdgesOf(Rebind(t, was, now)) == EdgesOf(t) && Rebind(t, was, now).Keys == t.Keys
  {
    hide Adjust;
    if was != Some(now) {
      if was.Some? { AdjustEdges(t, was.value, -1); }
      AdjustEdges(if was.Some? then Adjust(t, was.value, -1) else t, now, 1);
    }
  }

  lemma DeleteEffect(t: Tracked, id: Hash)
    ensures EdgesOf(Delete(t, id)) == EdgesOf(t) - {id} && Delete(t, id).Keys == t.Keys - {id}
  {
    if id in t {
      AdjustEdges(t - {id}, t[id].parent, -1);
      assert EdgesOf(t - {id}) == EdgesOf(t) - {id};
    } else {
      assert EdgesOf(t) - {id} == EdgesOf(t);
    }
  }

  // ---- Counts stay exact ---------------------------------------------------------

  /** How many children `q` gains when an edge changes. */
  function Gain(was: Option<Ref>, now: Option<Ref>, q: Hash): int
  {
    (if now == Some(Obj(q)) then 1 else 0) - (if was == Some(Obj(q)) then 1 else 0)
  }

  lemma ShiftMod(n: int, d: int)
    ensures Shift(n % U32, d) == (n + d) % U32
  {
  }

  lemma RebindCounts(t: Tracked, was: Option<Ref>, now: Ref, q: Hash)
    requires q in t
    ensures Rebind(t, was, now).Keys == t.Keys
    ensures Rebind(t, was, now)[q] == t[q].(children := Shift(t[q].children, Gain(was, Some(now), q)))
  {
    RebindEdges(t, was, now);
    ShiftMod(t[q].children, 0);
    if was != Some(now) {
      if was.Some? { AdjustEdges(t, was.value, -1); }
      AdjustEdges(if was.Some? then Adjust(t, was.value, -1) else t, now, 1);
      hide Adjust;
    }
  }

  lemma ChildrenAfterMove(edges: Edges, id: Hash, parent: Ref, q: Hash)
    ensures |ChildrenOf(edges[id := parent], q)| ==
              |ChildrenOf(edges, q)| + Gain(if id in edges then Some(edges[id]) else None, Some(parent), q)
  {
    var before, after := ChildrenOf(edges, q), ChildrenOf(edges[id := parent], q);
    assert after == (before - {id}) + (if parent == Obj(q) then {id} else {});
  }

  lemma ChildrenAfterRemove(edges: Edges, id: Hash, q: Hash)
    requires id in edges
    ensures |ChildrenOf(edges - {id}, q)| == |ChildrenOf(edges, q)| + Gain(Some(edges[id]), None, q)
  {
    var before, after := ChildrenOf(edges, q), ChildrenOf(edges - {id}, q);
    assert after == before - {id};
  }

  /** No tracked object names an untracked one. */
  lemma UntrackedIsChildless(t: Tracked, id: Hash)
    requires Rooted(EdgesOf(t)) && id !in t
    ensures ChildrenOf(EdgesOf(t), id) == {}
  {
    forall x | x in EdgesOf(t) && EdgesOf(t)[x] == Obj(id) ensures false {
      ParentsAreTracked(EdgesOf(t), x);
    }
  }

  lemma SetParentKeepsCounts(t: Tracked, id: Hash, parent: Ref)
    requires Counted(t) && id in t
    ensures Counted(SetParent(t, id, parent))
  {
    var t' := SetParent(t, id, parent);
    SetParentEffect(t, id, parent);
    EntryCounts(t, id, t[id].(parent := parent), parent);
  }

  /** Replacing an entry and rebinding its edge keeps the counts exact. */
  lemma EntryCounts(t: Tracked, id: Hash, e: Entry, parent: Ref)
    requires Counted(t) && e.parent == parent
    requires id in t ==> e.children == t[id].children
    requires id !in t ==> e.children == 0 && ChildrenOf(EdgesOf(t), id) == {}
    ensures Counted(Rebind(t[id := e], ParentOf(t, id), parent))
  {
    var base := t[id := e];
    var t' := Rebind(base, ParentOf(t, id), parent);
    RebindEdges(base, ParentOf(t, id), parent);
    assert EdgesOf(base) == EdgesOf(t)[id := parent];
    hide Rebind, ChildrenOf;
    forall q | q in t' ensures t'[q].children == |ChildrenOf(EdgesOf(t'), q)| % U32 {
      assert base[q].children == |ChildrenOf(EdgesOf(t), q)| % U32;
      EntryCount(t, id, e, parent, q);
    }
  }

  lemma EntryCount(t: Tracked, id: Hash, e: Entry, parent: Ref, q: Hash)
    requires e.parent == parent && q in t[id := e]
    requires t[id := e][q].children == |ChildrenOf(EdgesOf(t), q)| % U32
    ensures var t' := Rebind(t[id := e], ParentOf(t, id), parent);
            q in t' && t'[q].children == |ChildrenOf(EdgesOf(t)[id := parent], q)| % U32
  {
    hide Rebind, ChildrenOf;
    var base := t[id := e];
    RebindCounts(base, ParentOf(t, id), parent, q);
    ChildrenAfterMove(EdgesOf(t), id, parent, q);
    assert ParentOf(t, id) == if id in EdgesOf(t) then Some(EdgesOf(t)[id]) else None;
    CountStep(|ChildrenOf(EdgesOf(t), q)|, base[q].children, Gain(ParentOf(t, id), Some(parent), q));
  }

  lemma CountStep(n: nat, c: u32, gain: int)
    requires c == n % U32
    ensures Shift(c, gain) == (n + gain) % U32
  {
    ShiftMod(n, gain);
  }

  lemma TrackKeepsCounts(t: Tracked, id: Hash, version: u64, replication: nat, fees: u64, parent: Ref)
    requires Counted(t) && Rooted(EdgesOf(t))
    ensures Counted(Track(t, id, version, replication, fees, parent))
  {
    if id !in t { UntrackedIsChildless(t, id); }
    EntryCounts(t, id, Entry(version, replication, fees, parent, Get(t, id).children), parent);
  }

  lemma DeleteKeepsCounts(t: Tracked, id: Hash)
    requires Counted(t)
    ensures Counted(Delete(t, id))
  {
    if id in t {
      var t' := Delete(t, id);
      DeleteEffect(t, id);
      AdjustEdges(t - {id}, t[id].parent, -1);
      hide Adjust, Delete;
      forall q | q in t' ensures t'[q].children == |ChildrenOf(EdgesOf(t'), q)| % U32 {
        ChildrenAfterRemove(EdgesOf(t), id, q);
        CountStep(|ChildrenOf(EdgesOf(t), q)|, t[q].children, Gain(Some(t[id].parent), None, q));
        ShiftMod(t[q].children, 0);
      }
    }
  }

  // ---- Every reachable tracker ---------------------------------------------------

  /** Rooted, and counted exactly. */
  ghost predicate Forest(t: Tracked)
  {
    Rooted(EdgesOf(t)) && Counted(t)
  }

  /** What the commit path does to the tracker, under the checks it makes first. */
  datatype Change =
    | Create(id: Hash, version: u64, replication: nat, fees: u64, parent: Ref)
    | Bump(id: Hash)
    | Reparent(id: Hash, parent: Ref)
    | Remove(id: Hash)

  ghost predicate Allowed(t: Tracked, c: Change)
  {
    match c
    case Create(id, _, _, _, parent) => id !in t && (parent.Obj? ==> parent.id in t)
    case Bump(id) => Get(t, id).version < MAX_U64
    case Reparent(id, parent) => id in t && !WouldCycle(EdgesOf(t), id, parent)
    case Remove(id) => id in t && t[id].children == 0
  }

  ghost function Changed(t: Tracked, c: Change): Tracked
    requires Allowed(t, c)
  {
    match c
    case Create(id, version, replication, fees, parent) => Track(t, id, version, replication, fees, parent)
    case Bump(id) => var e := Get(t, id); Track(t, id, e.version + 1, e.replication, e.fees, e.parent)
    case Reparent(id, parent) => SetParent(t, id, parent)
    case Remove(id) => Delete(t, id)
  }

  lemma ChangeKeepsForest(t: Tracked, c: Change)
    requires Forest(t) && Allowed(t, c) && |t| < U32
    ensures Forest(Changed(t, c))
  {
    match c
    case Create(id, version, replication, fees, parent) => AttachKeepsForest(t, id, version, replication, fees, parent);
    case Bump(id) =>
      var e := Get(t, id);
      AttachKeepsForest(t, id, e.version + 1, e.replication, e.fees, e.parent);
    case Reparent(id, parent) =>
      var k: Hash := MoveTarget(EdgesOf(t), id, parent);
      MoveKeepsRooted(EdgesOf(t), id, parent, k);
      SetParentEffect(t, id, parent);
      SetParentKeepsCounts(t, id, parent);
    case Remove(id) =>
      ZeroCountIsChildless(t, id);
      RemoveKeepsRooted(EdgesOf(t), id);
      DeleteEffect(t, id);
      DeleteKeepsCounts(t, id);
  }

  lemma MoveTarget(edges: Edges, id: Hash, parent: Ref) returns (k: Hash)
    requires !WouldCycle(edges, id, parent)
    ensures Lands(edges, id, parent, k)
  {
    NoCycleLands(edges, id, parent);
    k :| Lands(edges, id, parent, k);
  }

  /** Writing an object under its present parent, or a new one under a tracked parent. */
  lemma AttachKeepsForest(t: Tracked, id: Hash, version: u64, replication: nat, fees: u64, parent: Ref)
    requires Forest(t)
    requires if id in t then parent == t[id].parent else parent.Key? || parent.id in t
    ensures Forest(Track(t, id, version, replication, fees, parent))
  {
    TrackEffect(t, id, version, replication, fees, parent);
    TrackKeepsCounts(t, id, version, replication, fees, parent);
    var edges := EdgesOf(t);
    if id in t {
      assert edges[id := parent] == edges;
    } else {
      var k: Hash := FreshLands(edges, id, parent);
      MoveKeepsRooted(edges, id, parent, k);
    }
  }

  lemma FreshLands(edges: Edges, id: Hash, parent: Ref) returns (k: Hash)
    requires Rooted(edges) && id !in edges && (parent.Obj? ==> parent.id in edges)
    ensures Lands(edges, id, parent, k)
  {
    if parent.Key? { return parent.key; }
    k :| Rules(edges, k, parent.id);
    var n: nat :| Controller(edges, parent.id, n) == Some(k);
    UntrackedIsAvoided(edges, id, parent.id, n);
  }

  lemma {:induction false} UntrackedIsAvoided(edges: Edges, id: Hash, from: Hash, n: nat)
    requires id !in edges && Controller(edges, from, n).Some?
    ensures !Cycles(edges, id, from, n)
    decreases n
  {
    if edges[from].Obj? { UntrackedIsAvoided(edges, id, edges[from].id, n - 1); }
  }

  ghost predicate Follows(t: Tracked, t': Tracked)
  {
    exists c :: Allowed(t, c) && t' == Changed(t, c)
  }

  /** Over every run of allowed changes from an empty tracker, as long as fewer than 2^32
      objects exist: the hierarchy is rooted, and every stored count is the true one. */
  lemma {:induction false} ReachableIsForest(states: seq<Tracked>, i: nat)
    requires |states| > 0 && states[0] == map[] && i < |states|
    requires forall j :: 0 <= j < |states| ==> |states[j]| < U32
    requires forall j :: 0 <= j < |states| - 1 ==> Follows(states[j], states[j + 1])
    ensures Forest(states[i])
    ensures forall id :: id in states[i] ==> states[i][id].children == |ChildrenOf(EdgesOf(states[i]), id)|
  {
    hide Changed, Allowed, Forest, EdgesOf, ChildrenOf;
    if i > 0 {
      ReachableIsForest(states, i - 1);
      assert Follows(states[i - 1], states[i]);
      var c :| Allowed(states[i - 1], c) && states[i] == Changed(states[i - 1], c);
      ChangeKeepsForest(states[i - 1], c);
    } else {
      EmptyIsForest();
    }
    CountsAreExact(states[i]);
  }

  lemma EmptyIsForest()
    ensures Forest(map[])
  {
  }

  lemma CountsAreExact(t: Tracked)
    requires Forest(t) && |t| < U32
    ensures forall id :: id in t ==> t[id].children == |ChildrenOf(EdgesOf(t), id)|
  {
    hide EdgesOf, ChildrenOf;
    forall id | id in t ensures t[id].children == |ChildrenOf(EdgesOf(t), id)| {
      ZeroCountIsChildless(t, id);
    }
  }
}
