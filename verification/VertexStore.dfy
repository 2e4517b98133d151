/** The vertex store: round index, producer lookups, and the breadth-first walk
    that turns a decided anchor into its commit batch. */
module VertexStore {
  import opened Common
  import opened Dag

  datatype CausalEntry = CausalEntry(hash: Hash, round: nat)

  predicate Before(a: CausalEntry, b: CausalEntry)
  {
    a.round < b.round || (a.round == b.round && a.hash < b.hash)
  }

  /** Strictly ascending by round, then by hash bytes. */
  predicate Ordered(s: seq<CausalEntry>)
  {
    forall i, j :: 0 <= i < j < |s| ==> Before(s[i], s[j])
  }

  function Insert(s: seq<CausalEntry>, e: CausalEntry): (r: seq<CausalEntry>)
    requires Ordered(s) && e !in s
    requires forall x :: x in s ==> x.hash != e.hash
    ensures Ordered(r) && Elements(r) == Elements(s) + {e} && |r| == |s| + 1
  {
    if s == [] || Before(e, s[0]) then
      assert [e] + s == [e] + s;
      [e] + s
    else
      assert s[0] in s;
      var rest := Insert(s[1..], e);
      assert s == [s[0]] + s[1..];
      assert forall x :: x in rest ==> x in Elements(s[1..]) + {e};
      assert forall k :: 0 <= k < |rest| ==> rest[k] in rest;
      assert forall x :: x in s[1..] ==> Before(s[0], x);
      [s[0]] + rest
  }

  predicate DistinctHashes(s: seq<CausalEntry>)
  {
    forall i, j :: 0 <= i < j < |s| ==> s[i].hash != s[j].hash
  }

  /** The walk's output in commit order. */
  function Sort(s: seq<CausalEntry>): (r: seq<CausalEntry>)
    requires DistinctHashes(s)
    ensures Ordered(r) && Elements(r) == Elements(s) && |r| == |s|
  {
    if s == [] then []
    else
      var rest := Sort(s[1..]);
      assert forall x :: x in rest ==> x in Elements(s[1..]);
      assert s == [s[0]] + s[1..];
      Insert(rest, s[0])
  }

  /** There is one ordered listing of a set of entries. */
  lemma {:induction false} OrderedUnique(a: seq<CausalEntry>, b: seq<CausalEntry>)
    requires Ordered(a) && Ordered(b) && Elements(a) == Elements(b)
    ensures a == b
  {
    if a == [] {
      NonEmptyElements(b);
    } else {
      assert a[0] in Elements(b);
      assert b != [] && b[0] in Elements(a);
      assert a[0] == b[0];
      forall x ensures x in a[1..] <==> x in b[1..]
      {
        assert x in Elements(a) <==> x in Elements(b);
        assert x in a[1..] <==> x in a && x != a[0];
        assert x in b[1..] <==> x in b && x != b[0];
      }
      assert Elements(a[1..]) == Elements(b[1..]);
      OrderedUnique(a[1..], b[1..]);
    }
  }

  function Hashes(s: seq<CausalEntry>): (r: seq<Hash>)
    ensures |r| == |s| && forall i :: 0 <= i < |s| ==> r[i] == s[i].hash
  {
    seq(|s|, i requires 0 <= i < |s| => s[i].hash)
  }

  predicate Ascending(s: seq<Hash>)
  {
    forall i, j :: 0 <= i < j < |s| ==> s[i] <= s[j]
  }

  function InsertHash(s: seq<Hash>, h: Hash): (r: seq<Hash>)
    requires Ascending(s)
    ensures Ascending(r) && forall x :: x in r <==> x in s || x == h
  {
    if s == [] || h <= s[0] then [h] + s
    else
      var rest := InsertHash(s[1..], h);
      assert forall x :: x in s <==> x == s[0] || x in s[1..];
      assert forall k :: 0 <= k < |rest| ==> rest[k] in rest;
      [s[0]] + rest
  }

  /** Hashes in ascending byte order. */
  function SortHashes(s: seq<Hash>): (r: seq<Hash>)
    ensures Ascending(r) && forall x :: x in r <==> x in s
  {
    if s == [] then []
    else
      assert forall x :: x in s <==> x == s[0] || x in s[1..];
      InsertHash(SortHashes(s[1..]), s[0])
  }

  /** A commit batch: the anchor's uncommitted history, once each, in (round, hash) order. */
  ghost predicate IsBatch(v: View, anchor: Hash, batch: seq<Hash>)
  {
    && Elements(batch) == History(v, anchor)
    && (forall h :: h in batch ==> h in v.vertices)
    && forall i, j :: 0 <= i < j < |batch| ==>
         Before(CausalEntry(batch[i], v.vertices[batch[i]].round), CausalEntry(batch[j], v.vertices[batch[j]].round))
  }

  /** A batch goes up round by round, and by rising hash within a round. */
  lemma BatchRises(v: View, anchor: Hash, batch: seq<Hash>, i: nat, j: nat)
    requires IsBatch(v, anchor, batch) && i < j < |batch|
    ensures batch[i] in v.vertices && batch[j] in v.vertices
    ensures v.vertices[batch[i]].round <= v.vertices[batch[j]].round
    ensures v.vertices[batch[i]].round == v.vertices[batch[j]].round ==> batch[i] < batch[j]
  {
  }

  /** The batch is a function of the history alone: it does not depend on arrival order. */
  lemma BatchUnique(v: View, w: View, anchorV: Hash, anchorW: Hash, a: seq<Hash>, b: seq<Hash>)
    requires IsBatch(v, anchorV, a) && IsBatch(w, anchorW, b)
    requires History(v, anchorV) == History(w, anchorW)
    requires forall h :: h in v.vertices && h in w.vertices ==> v.vertices[h].round == w.vertices[h].round
    ensures a == b
  {
    var ea := seq(|a|, i requires 0 <= i < |a| => CausalEntry(a[i], v.vertices[a[i]].round));
    var eb := seq(|b|, i requires 0 <= i < |b| => CausalEntry(b[i], w.vertices[b[i]].round));
    forall x ensures x in Elements(ea) <==> x in Elements(eb)
    {
      if x in ea {
        var i :| 0 <= i < |ea| && ea[i] == x;
        assert a[i] in Elements(b);
        var j :| 0 <= j < |b| && b[j] == a[i];
        assert eb[j] == x;
      }
      if x in eb {
        var j :| 0 <= j < |eb| && eb[j] == x;
        assert b[j] in Elements(a);
        var i :| 0 <= i < |a| && a[i] == b[j];
        assert ea[i] == x;
      }
    }
    OrderedUnique(ea, eb);
    assert forall i :: 0 <= i < |a| ==> ea[i].hash == a[i] && eb[i].hash == b[i];
  }

  /** The round index lists the stored vertices under their own rounds, and the
      latest round is the highest stored one. */
  ghost predicate Indexed(vertices: Graph, byRound: map<nat, seq<Hash>>, latestRound: nat)
  {
    && (forall r, h :: r in byRound && h in byRound[r] ==> h in vertices && vertices[h].round == r)
    && (forall h :: h in vertices ==> vertices[h].round in byRound && h in byRound[vertices[h].round])
    && (forall h :: h in vertices ==> vertices[h].round <= latestRound)
    && (latestRound > 0 ==> exists h :: h in vertices && vertices[h].round == latestRound)
  }

  function AtRound(byRound: map<nat, seq<Hash>>, r: nat): seq<Hash>
  {
    if r in byRound then byRound[r] else []
  }

  lemma IndexedAdd(vertices: Graph, byRound: map<nat, seq<Hash>>, latestRound: nat, hash: Hash, vertex: Vertex)
    requires Indexed(vertices, byRound, latestRound) && hash !in vertices
    ensures Indexed(vertices[hash := vertex],
                    byRound[vertex.round := AtRound(byRound, vertex.round) + [hash]],
                    if vertex.round > latestRound then vertex.round else latestRound)
  {
    var vertices' := vertices[hash := vertex];
    var byRound' := byRound[vertex.round := AtRound(byRound, vertex.round) + [hash]];
    var latest' := if vertex.round > latestRound then vertex.round else latestRound;
    assert forall r :: r in byRound ==> hash !in byRound[r];
    forall r, h | r in byRound' && h in byRound'[r] ensures h in vertices' && vertices'[h].round == r {
      if h != hash {
        assert r in byRound && h in byRound[r];
      }
    }
    if latest' > 0 { LatestAfter(vertices, latestRound, hash, vertex, vertices'); }
  }

  lemma LatestAfter(vertices: Graph, latestRound: nat, hash: Hash, vertex: Vertex, vertices': Graph)
    requires hash !in vertices && vertices' == vertices[hash := vertex]
    requires latestRound > 0 ==> exists h :: h in vertices && vertices[h].round == latestRound
    requires latestRound > 0 || vertex.round > latestRound
    ensures exists h :: h in vertices'
                        && vertices'[h].round == if vertex.round > latestRound then vertex.round else latestRound
  {
    if vertex.round > latestRound {
      assert vertices'[hash].round == vertex.round;
    } else {
      var h :| h in vertices && vertices[h].round == latestRound;
      assert vertices'[h].round == latestRound;
    }
  }

  class Store {
    var vertices: Graph
    var byRound: map<nat, seq<Hash>>
    var latestRound: nat
    var committed: set<Hash>
    var floor: Option<nat>

    ghost predicate Valid()
      reads this
    {
      Indexed(vertices, byRound, latestRound)
    }

    function AsView(): View
      reads this
    {
      View(vertices, committed, floor)
    }

    constructor ()
      ensures Valid()
      ensures vertices == map[] && committed == {} && floor == None && latestRound == 0
    {
      vertices, byRound, latestRound, committed, floor := map[], map[], 0, {}, None;
    }

    method Add(hash: Hash, vertex: Vertex) returns (added: bool)
      requires Valid()
      modifies this
      ensures Valid()
      ensures added == (hash !in old(vertices))
      ensures vertices == if added then old(vertices)[hash := vertex] else old(vertices)
      ensures committed == old(committed) && floor == old(floor)
    {
      if hash in vertices {
        return false;
      }
      var before := AtRound(byRound, vertex.round);
      vertices := vertices[hash := vertex];
      byRound := byRound[vertex.round := before + [hash]];
      if vertex.round > latestRound {
        latestRound := vertex.round;
      }
      IndexedAdd(old(vertices), old(byRound), old(latestRound), hash, vertex);
      return true;
    }

    method MarkCommitted(hash: Hash)
      requires Valid()
      modifies this`committed
      ensures Valid() && committed == old(committed) + {hash}
    {
      committed := committed + {hash};
    }

    /** Raises the snapshot floor, never lowers it. */
    method SetCommitFloor(round: nat)
      requires Valid()
      modifies this`floor
      ensures Valid() && floor.Some? && floor.value >= round
      ensures floor == if BelowFloor(old(AsView()), round) then old(floor) else Some(round)
    {
      if floor.Some? && round <= floor.value {
        return;
      }
      floor := Some(round);
    }

    /** Breadth-first walk over parent links. It fails on the first absent vertex;
        otherwise it lists the anchor's live history, each vertex once. */
    method CollectCausal(anchor: Hash) returns (collected: seq<CausalEntry>, ok: bool)
      ensures ok <==> Complete(AsView(), anchor)
      ensures ok ==> Lists(AsView(), History(AsView(), anchor), collected)
    {
      ghost var v := AsView();
      var seen: set<Hash> := {};
      var queue := [anchor];
      collected := [];
      WalkStart(v, anchor);

      while |queue| > 0
        invariant Frontier(v, anchor, seen, queue)
        invariant seen <= vertices.Keys
        invariant Lists(v, LiveOf(v, seen), collected)
        decreases vertices.Keys - seen, |queue|
      {
        var hash := queue[0];
        queue := queue[1..];
        if hash in seen || hash in committed {
          WalkSkip(v, anchor, seen, hash, queue);
          continue;
        }
        if hash !in vertices {
          WalkGap(v, anchor, seen, hash, queue);
          return [], false;
        }
        var vertex := vertices[hash];
        if !(floor.Some? && vertex.round <= floor.value) {
          WalkExpand(v, anchor, seen, hash, queue);
          ListsExtend(v, LiveOf(v, seen), collected, hash);
          collected := collected + [CausalEntry(hash, vertex.round)];
          queue := queue + vertex.parents;
          assert LiveOf(v, seen + {hash}) == LiveOf(v, seen) + {hash};
        } else {
          WalkStop(v, anchor, seen, hash, queue);
          assert LiveOf(v, seen + {hash}) == LiveOf(v, seen);
        }
        seen := seen + {hash};
      }
      WalkDone(v, anchor, seen);
      ok := true;
      assert LiveOf(v, seen) == History(v, anchor);
    }

    /** Ordered commit batch of an anchor, or failure while an ancestor is missing. */
    method CausalBatch(anchor: Hash) returns (batch: seq<Hash>, ok: bool)
      ensures ok <==> Complete(AsView(), anchor)
      ensures ok ==> IsBatch(AsView(), anchor, batch)
    {
      var collected, done := CollectCausal(anchor);
      if !done {
        return [], false;
      }
      var sorted := Sort(collected);
      batch, ok := Hashes(sorted), true;
      BatchOf(AsView(), anchor, collected, sorted);
    }

    /** The absent vertices the walk is blocked on. */
    method MissingAncestors(anchor: Hash) returns (missing: seq<Hash>)
      ensures forall h :: h in missing <==> Reach(AsView(), anchor, h) && h !in committed && h !in vertices
      ensures missing == [] <==> Complete(AsView(), anchor)
    {
      ghost var v := AsView();
      var seen: set<Hash> := {};
      var queue := [anchor];
      missing := [];
      WalkStart(v, anchor);

      while |queue| > 0
        invariant Frontier(v, anchor, seen, queue)
        invariant forall h :: h in missing <==> h in seen && h !in vertices
        decreases vertices.Keys - seen, |queue|
      {
        var hash := queue[0];
        queue := queue[1..];
        if hash in seen || hash in committed {
          WalkSkip(v, anchor, seen, hash, queue);
          continue;
        }
        if hash !in vertices {
          WalkStop(v, anchor, seen, hash, queue);
          assert vertices.Keys - (seen + {hash}) == vertices.Keys - seen;
          seen := seen + {hash};
          missing := missing + [hash];
          continue;
        }
        var vertex := vertices[hash];
        if !(floor.Some? && vertex.round <= floor.value) {
          WalkExpand(v, anchor, seen, hash, queue);
          queue := queue + vertex.parents;
        } else {
          WalkStop(v, anchor, seen, hash, queue);
        }
        seen := seen + {hash};
      }
      WalkDone(v, anchor, seen);
      if missing != [] { assert missing[0] in missing; }
    }
  }

  /** Entries listing a set of stored vertices, each once, with its round. */
  ghost predicate Lists(v: View, s: set<Hash>, entries: seq<CausalEntry>)
  {
    && DistinctHashes(entries)
    && (forall e :: e in entries ==> e.hash in s && e.hash in v.vertices && e.round == v.vertices[e.hash].round)
    && (forall h :: h in s ==> h in v.vertices && CausalEntry(h, v.vertices[h].round) in entries)
  }

  ghost function LiveOf(v: View, s: set<Hash>): set<Hash>
  {
    set h | h in s && Live(v, h)
  }

  lemma ListsExtend(v: View, s: set<Hash>, entries: seq<CausalEntry>, h: Hash)
    requires Lists(v, s, entries) && h in v.vertices && h !in s
    ensures Lists(v, s + {h}, entries + [CausalEntry(h, v.vertices[h].round)])
  {
    var more := entries + [CausalEntry(h, v.vertices[h].round)];
    assert forall i :: 0 <= i < |entries| ==> entries[i] in entries;
    assert forall e :: e in more <==> e in entries || e == CausalEntry(h, v.vertices[h].round);
  }

  /** Loop invariant of the walk: everything met is reachable, and every link of a
      visited live vertex is queued, visited or committed. */
  ghost predicate Frontier(v: View, anchor: Hash, seen: set<Hash>, queue: seq<Hash>)
  {
    && seen !! v.committed
    && (forall h :: h in queue || h in seen ==> Reach(v, anchor, h))
    && (anchor in queue || anchor in seen || anchor in v.committed)
    && (forall h, p :: h in seen && Edge(v, h, p) ==> p in queue || p in seen || p in v.committed)
  }

  lemma WalkStart(v: View, anchor: Hash)
    ensures Frontier(v, anchor, {}, [anchor])
    ensures LiveOf(v, {}) == {}
  {
    ReachSelf(v, anchor);
  }

  lemma WalkSkip(v: View, anchor: Hash, seen: set<Hash>, hash: Hash, rest: seq<Hash>)
    requires Frontier(v, anchor, seen, [hash] + rest) && (hash in seen || hash in v.committed)
    ensures Frontier(v, anchor, seen, rest)
  {
    assert forall h :: h in [hash] + rest <==> h == hash || h in rest;
  }

  lemma WalkStop(v: View, anchor: Hash, seen: set<Hash>, hash: Hash, rest: seq<Hash>)
    requires Frontier(v, anchor, seen, [hash] + rest) && hash !in v.committed && !Live(v, hash)
    ensures Frontier(v, anchor, seen + {hash}, rest)
  {
    assert forall h :: h in [hash] + rest <==> h == hash || h in rest;
  }

  lemma WalkExpand(v: View, anchor: Hash, seen: set<Hash>, hash: Hash, rest: seq<Hash>)
    requires Frontier(v, anchor, seen, [hash] + rest) && Live(v, hash)
    ensures Frontier(v, anchor, seen + {hash}, rest + v.vertices[hash].parents)
  {
    var parents := v.vertices[hash].parents;
    assert forall h :: h in [hash] + rest <==> h == hash || h in rest;
    assert forall h :: h in rest + parents <==> h in rest || h in parents;
    forall p | p in parents ensures Reach(v, anchor, p) { ReachStep(v, anchor, hash, p); }
  }

  lemma WalkGap(v: View, anchor: Hash, seen: set<Hash>, hash: Hash, rest: seq<Hash>)
    requires Frontier(v, anchor, seen, [hash] + rest) && hash !in v.committed && hash !in v.vertices
    ensures !Complete(v, anchor)
  {
    assert hash in [hash] + rest;
  }

  /** When the queue runs dry the walk has met everything reachable. */
  lemma WalkDone(v: View, anchor: Hash, seen: set<Hash>)
    requires Frontier(v, anchor, seen, [])
    ensures forall h :: Reach(v, anchor, h) && h !in v.committed <==> h in seen
  {
    forall h | Reach(v, anchor, h) ensures h in seen || h in v.committed {
      var n: nat :| ReachIn(v, anchor, h, n);
      WalkStaysIn(v, anchor, h, n, seen + v.committed);
    }
  }

  lemma BatchOf(v: View, anchor: Hash, collected: seq<CausalEntry>, sorted: seq<CausalEntry>)
    requires Ordered(sorted) && Elements(sorted) == Elements(collected)
    requires Lists(v, History(v, anchor), collected)
    ensures IsBatch(v, anchor, Hashes(sorted))
  {
    var batch := Hashes(sorted);
    forall e ensures e in sorted <==> e in collected {
      assert e in Elements(sorted) <==> e in Elements(collected);
    }
    forall h ensures h in batch <==> h in History(v, anchor) {
      if h in batch {
        var i :| 0 <= i < |batch| && batch[i] == h;
        assert sorted[i] in collected;
      }
      if h in History(v, anchor) {
        var e := CausalEntry(h, v.vertices[h].round);
        assert e in sorted;
        var i :| 0 <= i < |sorted| && sorted[i] == e;
        assert batch[i] == h;
      }
    }
    assert forall i :: 0 <= i < |sorted| ==> sorted[i] in collected;
  }
}
