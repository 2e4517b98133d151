/** Out-of-order arrival: vertices wait for their parents in a buffer that is retried
    after every admission (internal/consensus/dag.go, validate.go). Producers are known
    and rounds lie outside the transition window. */
module Arrival {
  import opened Common
  import opened Dag
  import opened VertexStore

  /** Every vertex of the DAG passes the checks that do not depend on what has arrived:
      a vertex past round 0 cites parents, and cites them one round down. */
  ghost predicate WellFormed(dag: Graph)
  {
    && Layered(dag)
    && forall h :: h in dag ==> (dag[h].round == 0 <==> dag[h].parents == [])
  }

  ghost function Whole(dag: Graph): View
  {
    View(dag, {}, None)
  }

  /** The arrivals whose whole ancestry has arrived. */
  ghost function Settled(dag: Graph, arrived: set<Hash>): set<Hash>
  {
    set h | h in arrived && forall x :: Reach(Whole(dag), h, x) ==> x in arrived
  }

  datatype Intake = Intake(store: set<Hash>, pending: set<Hash>)

  predicate Ready(v: Vertex, store: set<Hash>)
  {
    forall i :: 0 <= i < |v.parents| ==> v.parents[i] in store
  }

  // ---- Every interleaving of arrivals and retries ---------------------------------------

  datatype Event = Arrives(hash: Hash) | Retried(hash: Hash)

  ghost predicate Step(dag: Graph, s: Intake, e: Event, s': Intake)
  {
    match e
    case Arrives(h) =>
      h in dag &&
      s' == if h in s.store then s
            else if Ready(dag[h], s.store) then s.(store := s.store + {h})
            else s.(pending := s.pending + {h})
    case Retried(h) =>
      h in dag && h in s.pending && Ready(dag[h], s.store) && s' == Intake(s.store + {h}, s.pending - {h})
  }

  /** The retry loop has stopped: nothing pending can be admitted. */
  ghost predicate Quiet(dag: Graph, s: Intake)
  {
    forall h :: h in s.pending ==> h in dag && !Ready(dag[h], s.store)
  }

  ghost predicate Closed(dag: Graph, store: set<Hash>)
  {
    forall h :: h in store ==> h in dag && Ready(dag[h], store)
  }

  ghost predicate Tracks(dag: Graph, s: Intake, arrived: set<Hash>)
  {
    Closed(dag, s.store) && s.store + s.pending == arrived && forall h :: h in arrived ==> h in dag
  }

  ghost function Arrived(events: seq<Event>): set<Hash>
  {
    set i | 0 <= i < |events| && events[i].Arrives? :: events[i].hash
  }

  ghost predicate IsRun(dag: Graph, states: seq<Intake>, events: seq<Event>)
  {
    && |states| == |events| + 1 && states[0] == Intake({}, {})
    && forall j :: 0 <= j < |events| ==> Step(dag, states[j], events[j], states[j + 1])
  }

  lemma {:induction false} RunTracks(dag: Graph, states: seq<Intake>, events: seq<Event>, i: nat)
    requires IsRun(dag, states, events) && i < |states|
    ensures Tracks(dag, states[i], Arrived(events[..i]))
  {
    if i > 0 {
      RunTracks(dag, states, events, i - 1);
      assert Step(dag, states[i - 1], events[i - 1], states[i - 1 + 1]);
      ArrivedPush(events, i - 1);
      StepTracks(dag, states[i - 1], events[i - 1], states[i], Arrived(events[..i - 1]));
    }
  }

  lemma ArrivedPush(events: seq<Event>, i: nat)
    requires i < |events|
    ensures Arrived(events[..i + 1]) == Arrived(events[..i]) + if events[i].Arrives? then {events[i].hash} else {}
  {
    var before, after := events[..i], events[..i + 1];
    assert forall j :: 0 <= j < i ==> before[j] == after[j];
    assert after[i] == events[i];
    forall h | h in Arrived(before) ensures h in Arrived(after) {
      var j :| 0 <= j < |before| && before[j].Arrives? && before[j].hash == h;
      assert after[j].hash == h;
    }
    if events[i].Arrives? { assert after[i].hash in Arrived(after); }
    forall h | h in Arrived(after) ensures h in Arrived(before) + if events[i].Arrives? then {events[i].hash} else {} {
      var j :| 0 <= j < |after| && after[j].Arrives? && after[j].hash == h;
      if j < i { assert before[j].hash == h; }
    }
  }

  lemma StepTracks(dag: Graph, s: Intake, e: Event, s': Intake, arrived: set<Hash>)
    requires Tracks(dag, s, arrived) && Step(dag, s, e, s')
    ensures Tracks(dag, s', arrived + if e.Arrives? then {e.hash} else {})
  {
  }

  /** A store that holds every parent of its members holds their whole ancestry. */
  lemma ClosedHoldsAncestry(dag: Graph, store: set<Hash>, h: Hash, x: Hash)
    requires Closed(dag, store) && h in store && Reach(Whole(dag), h, x)
    ensures x in store
  {
    var n: nat :| ReachIn(Whole(dag), h, x, n);
    forall a, p | a in store && Edge(Whole(dag), a, p) ensures p in store {
      assert Ready(dag[a], store);
      var i :| 0 <= i < |dag[a].parents| && dag[a].parents[i] == p;
    }
    WalkStaysIn(Whole(dag), h, x, n, store);
  }

  lemma ParentIsSettled(dag: Graph, arrived: set<Hash>, h: Hash, p: Hash)
    requires h in Settled(dag, arrived) && h in dag && p in dag[h].parents
    ensures p in Settled(dag, arrived)
  {
    assert Edge(Whole(dag), h, p);
    forall x | Reach(Whole(dag), p, x) ensures x in arrived {
      ReachVia(Whole(dag), h, p, x);
    }
    ReachSelf(Whole(dag), p);
  }

  lemma {:induction false} SettledIsStored(dag: Graph, s: Intake, arrived: set<Hash>, h: Hash)
    requires WellFormed(dag) && Tracks(dag, s, arrived) && Quiet(dag, s) && h in Settled(dag, arrived)
    ensures h in s.store
    decreases dag[h].round
  {
    forall i | 0 <= i < |dag[h].parents| ensures dag[h].parents[i] in s.store {
      var p := dag[h].parents[i];
      ParentIsSettled(dag, arrived, h, p);
      assert p in dag && dag[h].round == dag[p].round + 1;
      SettledIsStored(dag, s, arrived, p);
    }
    assert Ready(dag[h], s.store);
  }

  /** When the retry loop stops, the store is exactly the arrivals whose whole ancestry
      arrived, and the rest are pending: nothing else about the order remains. */
  lemma QuietIsSettled(dag: Graph, s: Intake, arrived: set<Hash>)
    requires WellFormed(dag) && Tracks(dag, s, arrived) && Quiet(dag, s)
    ensures s.store == Settled(dag, arrived) && s.pending == arrived - s.store
  {
    forall h | h in s.store ensures h in Settled(dag, arrived) {
      forall x | Reach(Whole(dag), h, x) ensures x in arrived {
        ClosedHoldsAncestry(dag, s.store, h, x);
      }
    }
    forall h | h in Settled(dag, arrived) ensures h in s.store {
      SettledIsStored(dag, s, arrived, h);
    }
    forall h | h in s.pending ensures h !in s.store {
      assert !Ready(dag[h], s.store);
    }
  }

  /** Confluence: two nodes that were given the same vertices, in any orders and with any
      repetitions, hold the same store and the same buffer once both are quiet. */
  lemma ArrivalOrderIsForgotten(dag: Graph, a: seq<Intake>, da: seq<Event>, b: seq<Intake>, db: seq<Event>)
    requires WellFormed(dag) && IsRun(dag, a, da) && IsRun(dag, b, db) && Arrived(da) == Arrived(db)
    requires Quiet(dag, a[|da|]) && Quiet(dag, b[|db|])
    ensures a[|da|] == b[|db|]
  {
    assert da[..|da|] == da && db[..|db|] == db;
    RunTracks(dag, a, da, |da|);
    RunTracks(dag, b, db, |db|);
    QuietIsSettled(dag, a[|da|], Arrived(da));
    QuietIsSettled(dag, b[|db|], Arrived(db));
  }

  // ---- The buffer and its retry loop --------------------------------------------------------

  datatype Verdict = Accepted | MissingParent | Rejected

  class Inbox {
    var vertices: Graph
    var pending: Graph
    ghost var arrived: set<Hash>

    /** Between calls: the retry loop has run to its end. */
    ghost predicate Valid(dag: Graph)
      reads this
    {
      Holds(dag) && Quiet(dag, State())
    }

    ghost predicate Holds(dag: Graph)
      reads this
    {
      PartOf(vertices, dag) && PartOf(pending, dag) && Tracks(dag, State(), arrived)
    }

    ghost function State(): Intake
      reads this
    {
      Intake(vertices.Keys, pending.Keys)
    }

    constructor ()
      ensures vertices == map[] && pending == map[] && arrived == {}
    {
      vertices, pending, arrived := map[], map[], {};
    }

    /** validateParents: the first missing parent buffers the vertex. */
    method ValidateParents(vertex: Vertex) returns (r: Verdict)
      ensures vertex.round == 0 ==> r == Accepted
      ensures vertex.round > 0 && vertex.parents == [] ==> r == Rejected
      ensures r == Accepted && vertex.round > 0 ==>
                forall i :: 0 <= i < |vertex.parents| ==>
                  vertex.parents[i] in vertices && vertices[vertex.parents[i]].round == vertex.round - 1
      ensures r == MissingParent ==> exists i :: 0 <= i < |vertex.parents| && vertex.parents[i] !in vertices
      ensures r == Rejected && vertex.parents != [] ==>
                exists i :: 0 <= i < |vertex.parents| && vertex.parents[i] in vertices &&
                            vertices[vertex.parents[i]].round != vertex.round - 1
    {
      if vertex.round == 0 { return Accepted; }
      if |vertex.parents| == 0 { return Rejected; }
      for i := 0 to |vertex.parents|
        invariant forall j :: 0 <= j < i ==>
                    vertex.parents[j] in vertices && vertices[vertex.parents[j]].round == vertex.round - 1
      {
        if vertex.parents[i] !in vertices { return MissingParent; }
        if vertices[vertex.parents[i]].round != vertex.round - 1 { return Rejected; }
      }
      return Accepted;
    }

    /** For a vertex of the DAG the verdict is readiness. */
    method ValidateVertex(ghost dag: Graph, hash: Hash, vertex: Vertex) returns (r: Verdict)
      requires WellFormed(dag) && PartOf(vertices, dag) && hash in dag && dag[hash] == vertex
      ensures r == if Ready(vertex, vertices.Keys) then Accepted else MissingParent
    {
      r := ValidateParents(vertex);
    }

    /** Add one received vertex, then retry the buffer until nothing more is admitted. */
    method AddVertex(ghost dag: Graph, hash: Hash, vertex: Vertex)
      requires WellFormed(dag) && Valid(dag) && hash in dag && dag[hash] == vertex
      modifies this
      ensures Valid(dag) && arrived == old(arrived) + {hash}
      ensures vertices.Keys == Settled(dag, arrived) && pending.Keys == arrived - vertices.Keys
    {
      arrived := arrived + {hash};
      if hash !in vertices {
        var verdict := ValidateVertex(dag, hash, vertex);
        if verdict == Accepted {
          vertices := vertices[hash := vertex];
          ProcessPending(dag);
        } else {
          pending := pending[hash := vertex];
        }
      }
      QuietIsSettled(dag, State(), arrived);
    }

    method ProcessPending(ghost dag: Graph)
      requires WellFormed(dag) && Holds(dag)
      modifies `vertices, `pending
      ensures Valid(dag)
    {
      hide Quiet, PartOf, Tracks, WellFormed;
      var processed := true;
      while processed
        invariant Holds(dag)
        invariant !processed ==> Quiet(dag, State())
        decreases |pending.Keys|, processed
      {
        processed := TryProcessPending(dag);
      }
    }

    /** One pass over the buffer, lower rounds first; `progress` when something left it. */
    method TryProcessPending(ghost dag: Graph) returns (progress: bool)
      requires WellFormed(dag) && Holds(dag)
      modifies `vertices, `pending
      ensures Holds(dag) && |pending.Keys| <= |old(pending).Keys|
      ensures progress ==> |pending.Keys| < |old(pending).Keys|
      ensures !progress ==> Quiet(dag, State())
    {
      var sorted := SnapshotPending();
      progress := false;
      for i := 0 to |sorted|
        invariant Holds(dag) && pending.Keys <= old(pending).Keys
        invariant progress ==> pending.Keys < old(pending).Keys
        invariant !progress ==> State() == old(State()) && pending == old(pending)
        invariant !progress ==>
          forall j :: 0 <= j < i ==> sorted[j].hash in dag && !Ready(dag[sorted[j].hash], vertices.Keys)
        invariant forall j :: i <= j < |sorted| ==> sorted[j].hash in pending
        invariant forall j, k :: 0 <= j < k < |sorted| ==> sorted[j].hash != sorted[k].hash
      {
        var hash := sorted[i].hash;
        var verdict := ValidateVertex(dag, hash, pending[hash]);
        if verdict == Accepted {
          Admit(dag, hash);
          progress := true;
        }
      }
      if progress {
        ProperSubsetSize(pending.Keys, old(pending).Keys);
      } else {
        SubsetSize(pending.Keys, old(pending).Keys);
        forall h | h in pending ensures h in dag && !Ready(dag[h], vertices.Keys) {
          assert CausalEntry(h, pending[h].round) in Elements(sorted);
        }
      }
    }

    method Admit(ghost dag: Graph, hash: Hash)
      requires Holds(dag) && hash in pending && Ready(pending[hash], vertices.Keys)
      modifies `vertices, `pending
      ensures Holds(dag) && pending == old(pending) - {hash} && vertices == old(vertices)[hash := old(pending)[hash]]
    {
      StepTracks(dag, State(), Retried(hash), Intake(vertices.Keys + {hash}, pending.Keys - {hash}), arrived);
      vertices := vertices[hash := pending[hash]];
      pending := pending - {hash};
      assert State() == Intake(old(vertices).Keys + {hash}, old(pending).Keys - {hash});
    }

    /** The buffered entries, ascending by round. */
    method SnapshotPending() returns (sorted: seq<CausalEntry>)
      ensures Ordered(sorted) && Elements(sorted) == set h | h in pending :: CausalEntry(h, pending[h].round)
      ensures forall i, j :: 0 <= i < j < |sorted| ==> sorted[i].hash != sorted[j].hash
      ensures forall i :: 0 <= i < |sorted| ==> sorted[i].hash in pending
    {
      var entries: seq<CausalEntry> := [];
      var rest := pending.Keys;
      while rest != {}
        invariant rest <= pending.Keys && DistinctHashes(entries)
        invariant forall h :: h in pending && h !in rest ==> CausalEntry(h, pending[h].round) in entries
        invariant forall e :: e in entries ==> e.hash in pending && e.hash !in rest && e.round == pending[e.hash].round
        decreases rest
      {
        var h :| h in rest;
        entries := entries + [CausalEntry(h, pending[h].round)];
        rest := rest - {h};
      }
      sorted := Sort(entries);
      assert Elements(entries) == set h | h in pending :: CausalEntry(h, pending[h].round);
      forall e | e in sorted ensures e.hash in pending && e.round == pending[e.hash].round {
        assert e in Elements(sorted);
      }
      OrderedDistinct(sorted);
      forall i | 0 <= i < |sorted| ensures sorted[i].hash in pending {
        assert sorted[i] in Elements(sorted);
      }
    }
  }

  lemma OrderedDistinct(s: seq<CausalEntry>)
    requires Ordered(s) && forall e, f :: e in s && f in s && e.hash == f.hash ==> e.round == f.round
    ensures forall i, j :: 0 <= i < j < |s| ==> s[i].hash != s[j].hash
  {
    forall i, j | 0 <= i < j < |s| ensures s[i].hash != s[j].hash {
      assert Before(s[i], s[j]) && s[i] in s && s[j] in s;
    }
  }
}
