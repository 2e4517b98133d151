/** Crashes inside a round. The flag of each applied vertex is on disk at once, while fee
    buckets, liveness, registrations and the live validators are written with the cursor
    when the round is done (internal/consensus/commit.go, store_committed.go). */
module Recovery {
  import opened Common
  import opened Dag
  import opened VertexStore
  import opened Anchor
  import opened AnchorSafety
  import opened CommitLog

  // ---- A partly flagged batch ---------------------------------------------------------------

  /** The view after the vertices of `s` were flagged. */
  function Flagged(v: View, s: set<Hash>): View
  {
    v.(committed := v.committed + s)
  }

  /** Whatever a vertex of `s` links to that is still live is in `s` too. */
  ghost predicate ClosedDown(v: View, s: set<Hash>)
  {
    forall h, p :: h in s && Edge(v, h, p) && Live(v, p) ==> p in s
  }

  lemma {:induction false} ReachSurvives(v: View, s: set<Hash>, from: Hash, to: Hash, n: nat)
    requires ClosedDown(v, s) && Live(v, to) && to !in s && ReachIn(v, from, to, n)
    ensures ReachIn(Flagged(v, s), from, to, n)
    decreases n
  {
    if n > 0 {
      var mid :| ReachIn(v, from, mid, n - 1) && Edge(v, mid, to);
      ReachSurvives(v, s, from, mid, n - 1);
      assert Edge(Flagged(v, s), mid, to);
    }
  }

  lemma {:induction false} ReachWasThere(v: View, s: set<Hash>, from: Hash, to: Hash, n: nat)
    requires ReachIn(Flagged(v, s), from, to, n)
    ensures ReachIn(v, from, to, n)
    decreases n
  {
    if n > 0 {
      var mid :| ReachIn(Flagged(v, s), from, mid, n - 1) && Edge(Flagged(v, s), mid, to);
      ReachWasThere(v, s, from, mid, n - 1);
      assert Edge(v, mid, to);
    }
  }

  /** Flagging a downward-closed set takes it out of every history, and nothing else. */
  lemma FlaggedHistory(v: View, s: set<Hash>, x: Hash)
    requires ClosedDown(v, s)
    ensures History(Flagged(v, s), x) == History(v, x) - s
    ensures Complete(v, x) ==> Complete(Flagged(v, s), x)
  {
    var w := Flagged(v, s);
    forall h | Reach(w, x, h) ensures Reach(v, x, h) {
      var n: nat :| ReachIn(w, x, h, n);
      ReachWasThere(v, s, x, h, n);
    }
    forall h | h in History(v, x) && h !in s ensures h in History(w, x) {
      var n: nat :| ReachIn(v, x, h, n);
      ReachSurvives(v, s, x, h, n);
    }
  }

  /** The first vertices of a batch are closed downward: parents come first. */
  lemma FrontIsClosed(v: View, anchor: Hash, batch: seq<Hash>, k: nat)
    requires Layered(v.vertices) && IsBatch(v, anchor, batch) && k <= |batch|
    ensures ClosedDown(v, Elements(batch[..k]))
  {
    forall h, p | h in Elements(batch[..k]) && Edge(v, h, p) && Live(v, p) ensures p in Elements(batch[..k]) {
      var i :| 0 <= i < k && batch[i] == h;
      assert h in Elements(batch);
      ReachStep(v, anchor, h, p);
      assert p in Elements(batch);
      var j :| 0 <= j < |batch| && batch[j] == p;
      assert v.vertices[batch[j]].round < v.vertices[batch[i]].round;
      assert j < i;
      TakeContains(batch, k, j);
    }
  }

  /** What is left of a batch is the batch of what is left. */
  lemma RestOfBatch(v: View, anchor: Hash, k: nat)
    requires Layered(v.vertices) && k <= |Batch(v, anchor)|
    ensures Batch(Flagged(v, Elements(Batch(v, anchor)[..k])), anchor) == Batch(v, anchor)[k..]
  {
    hide History, Batch;
    var batch := Batch(v, anchor);
    BatchExists(v, anchor);
    FrontIsClosed(v, anchor, batch, k);
    FlaggedHistory(v, Elements(batch[..k]), anchor);
    BackElements(v, anchor, batch, k);
    var w := Flagged(v, Elements(batch[..k]));
    assert IsBatch(w, anchor, batch[k..]);
  }

  lemma BackElements(v: View, anchor: Hash, batch: seq<Hash>, k: nat)
    requires IsBatch(v, anchor, batch) && k <= |batch|
    ensures Elements(batch[k..]) == Elements(batch) - Elements(batch[..k])
    ensures Elements(batch) == Elements(batch[..k]) + Elements(batch[k..])
  {
    BatchFacts(v, anchor, batch);
    assert batch == batch[..k] + batch[k..];
    forall h | h in batch[k..] ensures h !in batch[..k] {
      var i :| 0 <= i < |batch| - k && batch[k..][i] == h;
      assert batch[k + i] == h;
    }
  }

  /** A round whose batch is cut short by a crash after `k` vertices. */
  ghost function Partial(s: Chain, anchor: Hash, k: nat): Chain
    requires k <= |Batch(s.view, anchor)|
  {
    var front := Batch(s.view, anchor)[..k];
    s.(view := Flagged(s.view, Elements(front)), log := s.log + front)
  }

  /** Deciding the round again after the crash ends exactly where deciding it at once would. */
  lemma ResumedRound(s: Chain, anchor: Hash, k: nat)
    requires Layered(s.view.vertices) && k <= |Batch(s.view, anchor)|
    ensures Decide(Partial(s, anchor, k), Some(anchor)) == Decide(s, Some(anchor))
  {
    hide Batch, History;
    var batch := Batch(s.view, anchor);
    RestOfBatch(s.view, anchor, k);
    BatchExists(s.view, anchor);
    BackElements(s.view, anchor, batch, k);
    assert s.view.committed + Elements(batch[..k]) + Elements(batch[k..]) == s.view.committed + Elements(batch);
    assert s.log + batch[..k] + batch[k..] == s.log + batch;
  }

  // ---- The restarted node decides the round again ----------------------------------------------

  /** A scan of an unchanged store stops at the same certified round. */
  lemma {:induction false} SameScan(cfg: Config, v: View, w: View, round: nat, r: nat, at: nat, x: Hash)
    requires w.vertices == v.vertices && round < r <= at <= HighestRound(v.vertices)
    requires DirectVerdict(cfg, v.vertices, at) == Certified(x)
    requires forall k :: r <= k < at ==>
              || DirectVerdict(cfg, v.vertices, k) == Blamed
              || (DirectVerdict(cfg, v.vertices, k) == Undecided && MayScanPast(cfg, v.vertices, round, k))
    ensures Scan(cfg, w, round, r) == ResolveIndirect(cfg, w, round, x)
    decreases at - r
  {
    hide DirectVerdict, MayScanPast, ResolveIndirect;
    if r < at { SameScan(cfg, v, w, round, r + 1, at, x); }
  }

  /** The anchor is alone at its round in its own history, so it comes last in its batch. */
  lemma AnchorIsLast(v: View, anchor: Hash, batch: seq<Hash>, i: nat)
    requires Layered(v.vertices) && anchor in v.vertices && IsBatch(v, anchor, batch) && i < |batch|
    requires v.vertices[batch[i]].round >= v.vertices[anchor].round
    ensures batch[i] == anchor && i == |batch| - 1
  {
    assert batch[i] in Elements(batch);
    OnlyAtTop(v, anchor, batch[i]);
    if i < |batch| - 1 {
      assert batch[|batch| - 1] in Elements(batch);
      OnlyAtTop(v, anchor, batch[|batch| - 1]);
    }
  }

  lemma OnlyAtTop(v: View, anchor: Hash, h: Hash)
    requires Layered(v.vertices) && anchor in v.vertices && h in History(v, anchor)
    ensures v.vertices[h].round <= v.vertices[anchor].round
    ensures v.vertices[h].round == v.vertices[anchor].round ==> h == anchor
  {
    var n: nat :| ReachIn(v, anchor, h, n);
    WalkDescends(v, anchor, h, n);
  }

  /** A node that crashed inside the round and sees nothing new decides it again: for the same
      anchor while some of the batch is left or the anchor is certified directly. When all of
      it was applied, an indirect decision is carried by the candidates still unflagged. */
  lemma RedecidedRound(cfg: Config, v: View, round: nat, anchor: Hash, k: nat)
    requires Layered(v.vertices) && AnchorStatus(cfg, v, round) == Commit(anchor)
    requires k <= |Batch(v, anchor)|
    ensures anchor in v.vertices
    ensures var w := Flagged(v, Elements(Batch(v, anchor)[..k]));
            && (k < |Batch(v, anchor)| || DirectVerdict(cfg, v.vertices, round).Certified? ==>
                  AnchorStatus(cfg, w, round) == Commit(anchor))
            && (!cfg.relaxed(round) && SingleVertex(v.vertices, round, v.vertices[anchor].producer) ==>
                  AnchorStatus(cfg, w, round) == Commit(anchor) || AnchorStatus(cfg, w, round) == Skip)
  {
    hide DirectVerdict, MayScanPast, ResolveIndirect, Batch, History;
    CommittedAnchor(cfg, v, round, anchor);
    var batch := Batch(v, anchor);
    var w := Flagged(v, Elements(batch[..k]));
    if !DirectVerdict(cfg, v.vertices, round).Certified? {
      var at, x := ScanResolver(cfg, v, round, round + 1);
      SameScan(cfg, v, w, round, round + 1, at, x);
      RedecidedByAnchor(cfg, v, round, anchor, k, x);
    }
  }

  lemma RedecidedByAnchor(cfg: Config, v: View, round: nat, anchor: Hash, k: nat, x: Hash)
    requires Layered(v.vertices) && ResolveIndirect(cfg, v, round, x) == Commit(anchor)
    requires anchor in v.vertices && v.vertices[anchor].round == round && k <= |Batch(v, anchor)|
    ensures var w := Flagged(v, Elements(Batch(v, anchor)[..k]));
            && (k < |Batch(v, anchor)| ==> ResolveIndirect(cfg, w, round, x) == Commit(anchor))
            && (!cfg.relaxed(round) && SingleVertex(v.vertices, round, v.vertices[anchor].producer) ==>
                  ResolveIndirect(cfg, w, round, x) == Commit(anchor) || ResolveIndirect(cfg, w, round, x) == Skip)
  {
    hide History, Batch, Complete, DeadProducer, RelaxedSupporterPossible;
    var batch := Batch(v, anchor);
    var front := Elements(batch[..k]);
    BatchExists(v, anchor);
    FrontIsClosed(v, anchor, batch, k);
    FlaggedHistory(v, front, x);
    var candidates := Candidates(v.vertices, round, cfg.designated(round).value);
    hide Candidates, Elements;
    if k < |batch| {
      FrontIsBelow(v, anchor, batch, k, round, cfg.designated(round).value);
      assert candidates * (History(v, x) - front) == candidates * History(v, x);
    } else if SingleVertex(v.vertices, round, v.vertices[anchor].producer) {
      AloneOrFlagged(cfg, v, round, anchor, x, front);
    }
  }

  /** A lone candidate is carried still, or nothing is. */
  lemma AloneOrFlagged(cfg: Config, v: View, round: nat, anchor: Hash, x: Hash, front: set<Hash>)
    requires ResolveIndirect(cfg, v, round, x) == Commit(anchor)
    requires anchor in v.vertices && SingleVertex(v.vertices, round, v.vertices[anchor].producer)
    ensures var carried := Candidates(v.vertices, round, cfg.designated(round).value) * (History(v, x) - front);
            carried == {} || carried == {anchor}
  {
    hide History, Complete, DeadProducer, RelaxedSupporterPossible;
    var candidates := Candidates(v.vertices, round, cfg.designated(round).value);
    assert anchor in candidates;
    assert forall h :: h in candidates ==> h == anchor;
  }

  /** Short of the whole batch no candidate of the round is flagged. */
  lemma FrontIsBelow(v: View, anchor: Hash, batch: seq<Hash>, k: nat, round: nat, producer: Hash)
    requires Layered(v.vertices) && anchor in v.vertices && v.vertices[anchor].round == round
    requires IsBatch(v, anchor, batch) && k < |batch|
    ensures Candidates(v.vertices, round, producer) * Elements(batch[..k]) == {}
  {
    forall h | h in Candidates(v.vertices, round, producer) ensures h !in Elements(batch[..k]) {
      if h in Elements(batch[..k]) {
        var i :| 0 <= i < k && batch[i] == h;
        AnchorIsLast(v, anchor, batch, i);
        assert false;
      }
    }
  }

  // ---- Runs with crashes ------------------------------------------------------------------------

  /** `chain` is what is on disk vertex by vertex; `regime` the vertices whose fees, liveness,
      registrations and bonds the last cursor batch saved. */
  datatype Node = Node(chain: Chain, regime: seq<Hash>)

  /** A decided round, or a crash after some of a decided anchor's batch, with the restart. */
  datatype Event = Decided(outcome: Option<Hash>) | Crashed(anchor: Hash, after: nat)

  ghost function BatchOfRound(s: Chain, anchor: Option<Hash>): seq<Hash>
  {
    if anchor.Some? then Batch(s.view, anchor.value) else []
  }

  ghost predicate Step(n: Node, e: Event, n': Node)
  {
    match e
    case Decided(anchor) => n' == Node(Decide(n.chain, anchor), n.regime + BatchOfRound(n.chain, anchor))
    case Crashed(anchor, after) =>
      after <= |Batch(n.chain.view, anchor)| && n' == Node(Partial(n.chain, anchor, after), n.regime)
  }

  ghost predicate IsRun(start: Chain, nodes: seq<Node>, events: seq<Event>)
  {
    && |nodes| == |events| + 1 && nodes[0] == Node(start, start.log)
    && forall j :: 0 <= j < |events| ==> Step(nodes[j], events[j], nodes[j + 1])
  }

  /** After a crash the round is decided for the same anchor, or skipped with nothing of its
      batch left, as a node that sees nothing new does. */
  ghost predicate Resumes(nodes: seq<Node>, events: seq<Event>, j: nat)
    requires |nodes| == |events| + 1 && j + 1 < |events|
  {
    events[j].Crashed? ==>
      if events[j + 1].Crashed? then events[j + 1].anchor == events[j].anchor
      else
        || events[j + 1].outcome == Some(events[j].anchor)
        || (events[j + 1].outcome == None && Batch(nodes[j + 1].chain.view, events[j].anchor) == [])
  }

  /** What an uncrashed node decides: a round that was resumed counts for its anchor. */
  ghost function Decisions(events: seq<Event>, i: nat): seq<Option<Hash>>
    requires i <= |events|
  {
    if i == 0 then []
    else if events[i - 1].Crashed? then Decisions(events, i - 1)
    else Decisions(events, i - 1)
         + [if i > 1 && events[i - 2].Crashed? then Some(events[i - 2].anchor) else events[i - 1].outcome]
  }

  /** The node that decides the same rounds and never crashes. */
  ghost function Uncrashed(start: Chain, ds: seq<Option<Hash>>): Chain
  {
    if ds == [] then start else Decide(Uncrashed(start, ds[..|ds| - 1]), ds[|ds| - 1])
  }

  /** Equal but for what the decision list recorded. */
  ghost predicate SameDisk(s: Chain, t: Chain)
  {
    s.view == t.view && s.base == t.base && s.log == t.log && s.cursor == t.cursor
  }

  lemma DecideSameDisk(s: Chain, t: Chain, anchor: Option<Hash>)
    requires SameDisk(s, t)
    ensures SameDisk(Decide(s, anchor), Decide(t, anchor))
  {
  }

  /** Over every run: whatever crashes, vertex by vertex the disk is that of the node that
      never crashed once the round is decided, and during it is a resumable part of it. */
  lemma {:induction false} DiskSurvives(start: Chain, nodes: seq<Node>, events: seq<Event>, i: nat)
    requires IsRun(start, nodes, events) && i < |nodes| && Layered(start.view.vertices)
    requires forall j :: 0 <= j && j + 1 < |events| ==> Resumes(nodes, events, j)
    ensures nodes[i].chain.view.vertices == start.view.vertices
    ensures var twin := Uncrashed(start, Decisions(events, i));
            if i > 0 && events[i - 1].Crashed?
            then SameDisk(Decide(nodes[i].chain, Some(events[i - 1].anchor)), Decide(twin, Some(events[i - 1].anchor)))
            else SameDisk(nodes[i].chain, twin)
  {
    hide Batch;
    if i > 0 {
      DiskSurvives(start, nodes, events, i - 1);
      assert Step(nodes[i - 1], events[i - 1], nodes[i - 1 + 1]);
      if i > 1 { assert Resumes(nodes, events, i - 2); }
      var n, twin := nodes[i - 1].chain, Uncrashed(start, Decisions(events, i - 1));
      match events[i - 1] {
        case Crashed(anchor, after) =>
          ResumedRound(n, anchor, after);
          if i == 1 || events[i - 2].Decided? { DecideSameDisk(n, twin, Some(anchor)); }
        case Decided(anchor) =>
          var ds := Decisions(events, i);
          assert ds[..|ds| - 1] == Decisions(events, i - 1);
          if i > 1 && events[i - 2].Crashed? {
            if anchor.None? { NothingLeft(n, events[i - 2].anchor); }
          } else {
            DecideSameDisk(n, twin, anchor);
          }
      }
    }
  }

  /** Skipping a round whose batch is all applied is committing it, but for the record. */
  lemma NothingLeft(s: Chain, anchor: Hash)
    requires Batch(s.view, anchor) == []
    ensures SameDisk(Decide(s, None), Decide(s, Some(anchor)))
  {
  }

  /** The vertices whose effects on the regime each crash so far threw away. */
  ghost function Lost(nodes: seq<Node>, events: seq<Event>, i: nat): seq<Hash>
    requires |nodes| == |events| + 1 && i <= |events|
  {
    if i == 0 then []
    else Lost(nodes, events, i - 1) + LostBy(nodes[i - 1], events[i - 1])
  }

  ghost function LostBy(n: Node, e: Event): seq<Hash>
  {
    if e.Crashed? && e.after <= |Batch(n.chain.view, e.anchor)| then Batch(n.chain.view, e.anchor)[..e.after] else []
  }

  /** Over every run: every vertex on disk is in the saved regime or was lost to a crash, and
      none is in both. */
  lemma {:induction false} RegimeAccounts(start: Chain, nodes: seq<Node>, events: seq<Event>, i: nat)
    requires IsRun(start, nodes, events) && i < |nodes|
    ensures multiset(nodes[i].chain.log) == multiset(nodes[i].regime) + multiset(Lost(nodes, events, i))
    ensures Lost(nodes, events, i) == [] ==> nodes[i].regime == nodes[i].chain.log
  {
    hide Batch;
    if i > 0 {
      RegimeAccounts(start, nodes, events, i - 1);
      assert Step(nodes[i - 1], events[i - 1], nodes[i - 1 + 1]);
    }
  }

  /** A restarted node holds the regime of the node that never crashed, at the same cursor,
      exactly when no crash came after a vertex of a round was applied and before its cursor
      was saved. */
  lemma RegimeSurvivesIff(start: Chain, nodes: seq<Node>, events: seq<Event>, i: nat)
    requires IsRun(start, nodes, events) && i < |nodes| && Layered(start.view.vertices)
    requires forall j :: 0 <= j && j + 1 < |events| ==> Resumes(nodes, events, j)
    requires i > 0 ==> events[i - 1].Decided?
    ensures SameDisk(nodes[i].chain, Uncrashed(start, Decisions(events, i)))
    ensures nodes[i].regime == Uncrashed(start, Decisions(events, i)).log <==>
              forall j :: 0 <= j < i && events[j].Crashed? ==> events[j].after == 0
  {
    hide Batch, Decide, Partial;
    DiskSurvives(start, nodes, events, i);
    RegimeAccounts(start, nodes, events, i);
    LostNothingIff(start, nodes, events, i);
    var log, lost := nodes[i].chain.log, Lost(nodes, events, i);
    if nodes[i].regime == log { assert |multiset(lost)| == 0; }
  }

  lemma {:induction false} LostNothingIff(start: Chain, nodes: seq<Node>, events: seq<Event>, i: nat)
    requires IsRun(start, nodes, events) && i < |nodes|
    ensures Lost(nodes, events, i) == [] <==> forall j :: 0 <= j < i && events[j].Crashed? ==> events[j].after == 0
  {
    hide Step, LostBy;
    if i > 0 {
      LostNothingIff(start, nodes, events, i - 1);
      assert Step(nodes[i - 1], events[i - 1], nodes[i - 1 + 1]);
      LosesIff(nodes[i - 1], events[i - 1], nodes[i]);
    }
  }

  lemma LosesIff(n: Node, e: Event, n': Node)
    requires Step(n, e, n')
    ensures LostBy(n, e) == [] <==> (e.Crashed? ==> e.after == 0)
  {
    hide Batch, Decide, Partial;
  }

  // ---- The losing run -----------------------------------------------------------------------------

  /** One vertex, the anchor of round 0, with nothing decided yet. */
  function OneVertex(): Chain
  {
    Chain(View(map[10 := Vertex(0, 1, [])], {}, None), {}, [], 0, [])
  }

  lemma OneVertexBatch()
    ensures Batch(OneVertex().view, 10) == [10]
  {
    var v := OneVertex().view;
    ReachSelf(v, 10);
    assert Live(v, 10) && 10 in v.vertices;
    assert History(v, 10) == {10};
    assert IsBatch(v, 10, [10]);
  }

  /** A crash between the vertex and the cursor: the round is decided again, the disk is as if
      nothing had happened, and the registration the vertex carried is gone for good. */
  lemma CrashLosesRegime()
    ensures |Batch(OneVertex().view, 10)| == 1
    ensures var s := OneVertex();
            var events := [Crashed(10, 1), Decided(Some(10))];
            var nodes := [Node(s, []), Node(Partial(s, 10, 1), []), Node(Decide(s, Some(10)), [])];
            && IsRun(s, nodes, events) && Resumes(nodes, events, 0)
            && Uncrashed(s, Decisions(events, 2)).log == [10] && nodes[2].regime == []
  {
    hide Batch;
    var s := OneVertex();
    OneVertexBatch();
    ResumedRound(s, 10, 1);
    RestOfBatch(s.view, 10, 1);
    var events := [Crashed(10, 1), Decided(Some(10))];
    assert Decisions(events, 1) == [];
    var ds := Decisions(events, 2);
    assert ds == [Some(10)] && ds[..0] == [];
    assert Uncrashed(s, ds) == Decide(Uncrashed(s, []), Some(10));
  }
}
