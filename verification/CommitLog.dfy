/** The committed log over whole runs (internal/consensus/commit.go): vertices arrive,
    the commit loop decides the round at its cursor, and a decided anchor's batch is
    appended to the log. */
module CommitLog {
  import opened Common
  import opened Dag
  import opened VertexStore
  import opened Anchor
  import opened AnchorSafety

  /** A node's commit state. `base` is what a snapshot import had already committed,
      `log` the vertices applied since, `decisions` one entry per decided round. */
  datatype Chain = Chain(view: View, base: set<Hash>, log: seq<Hash>, cursor: nat, decisions: seq<Option<Hash>>)

  /** The commit batch of an anchor; unique by BatchUnique. */
  ghost function Batch(v: View, anchor: Hash): (b: seq<Hash>)
    ensures forall c :: IsBatch(v, anchor, c) ==> b == c
  {
    if exists c :: IsBatch(v, anchor, c) then
      var b :| IsBatch(v, anchor, b);
      assert forall c :: IsBatch(v, anchor, c) ==> b == c by {
        forall c | IsBatch(v, anchor, c) ensures b == c { BatchUnique(v, v, anchor, anchor, b, c); }
      }
      b
    else []
  }

  /** Fold one decided round into the state: nothing for a skip, the batch for a commit. */
  ghost function Decide(s: Chain, anchor: Option<Hash>): Chain
  {
    var batch := if anchor.Some? then Batch(s.view, anchor.value) else [];
    Chain(s.view.(committed := s.view.committed + Elements(batch)),
          s.base, s.log + batch, s.cursor + 1, s.decisions + [anchor])
  }

  /** What the decisions so far make of holders, designation and regime. Transactions in
      the committed batches move all three, so each decision may change them for any
      round, the next epoch's holders included. */
  type Context = seq<Option<Hash>> -> Config

  /** One pass of the commit loop at the cursor. */
  ghost function Tick(ctx: Context, s: Chain): Chain
  {
    match AnchorStatus(ctx(s.decisions), s.view, s.cursor)
    case Wait => s
    case Skip => Decide(s, None)
    case Commit(a) => if Complete(s.view, a) then Decide(s, Some(a)) else s
  }

  /** A vertex of the network's DAG is stored once its parents are. */
  ghost predicate Arrives(dag: Graph, s: Chain, s': Chain, h: Hash)
  {
    && h in dag && h !in s.view.vertices
    && (forall p :: p in dag[h].parents ==> p in s.view.vertices)
    && s' == s.(view := s.view.(vertices := s.view.vertices[h := dag[h]]))
  }

  ghost predicate Step(ctx: Context, dag: Graph, s: Chain, s': Chain)
  {
    s' == Tick(ctx, s) || exists h :: Arrives(dag, s, s', h)
  }

  type Run = seq<Chain>

  ghost predicate IsRun(ctx: Context, dag: Graph, run: Run)
  {
    && |run| > 0 && Layered(dag)
    && Start(dag, run[0])
    && forall i :: 0 <= i < |run| - 1 ==> Step(ctx, dag, run[i], run[i + 1])
  }

  // ---- Invariant ------------------------------------------------------------

  predicate AboveFloor(v: View, h: Hash)
  {
    h in v.vertices && !BelowFloor(v, v.vertices[h].round)
  }

  /** The committed set is closed under parents above the floor. */
  ghost predicate CommittedClosed(v: View)
  {
    forall h, p :: h in v.committed && AboveFloor(v, h) && p in v.vertices[h].parents && AboveFloor(v, p) ==>
      p in v.committed
  }

  /** A fresh or freshly imported node, before it decides anything. */
  ghost predicate Start(dag: Graph, s: Chain)
  {
    && s.log == [] && s.decisions == [] && s.base == s.view.committed
    && Shape(dag, s)
  }

  ghost predicate Shape(dag: Graph, s: Chain)
  {
    && PartOf(s.view.vertices, dag) && CausallyClosed(s.view)
    && s.view.committed <= s.view.vertices.Keys
    && (forall h :: h in s.view.committed ==> s.view.vertices[h].round < s.cursor)
    && (s.view.floor.Some? ==> s.view.floor.value < s.cursor)
    && CommittedClosed(s.view)
    && LinksKnown(s.view)
  }

  /** Links of stored vertices above the lowest imported round are stored. */
  ghost predicate LinksKnown(v: View)
  {
    forall h, p :: h in v.vertices && p in v.vertices[h].parents && p !in v.vertices ==>
      v.floor.Some? && v.vertices[h].round <= v.floor.value + 1
  }

  /** Each vertex is applied once, after all its parents above the floor. */
  ghost predicate LogOrdered(s: Chain)
  {
    && Elements(s.log) !! s.base
    && s.view.committed == s.base + Elements(s.log)
    && (forall h, p :: h in s.base && AboveFloor(s.view, h) && p in s.view.vertices[h].parents
                       && AboveFloor(s.view, p) ==>
          p in s.base)
    && (forall i, j :: 0 <= i < j < |s.log| ==> s.log[i] != s.log[j])
    && (forall i :: 0 <= i < |s.log| ==> AboveFloor(s.view, s.log[i]))
    && (forall i, p :: 0 <= i < |s.log| && p in s.view.vertices[s.log[i]].parents && AboveFloor(s.view, p) ==>
          p in s.base || p in s.log[..i])
  }

  ghost predicate Inv(dag: Graph, s: Chain)
  {
    Layered(dag) && Shape(dag, s) && LogOrdered(s)
  }

  lemma PartIsLayered(part: Graph, dag: Graph)
    requires PartOf(part, dag) && Layered(dag)
    ensures Layered(part)
  {
  }

  // ---- A decision keeps the invariant ----------------------------------------

  lemma BatchExists(v: View, anchor: Hash)
    ensures IsBatch(v, anchor, Batch(v, anchor))
  {
    var batch := ListBatch(v, History(v, anchor), anchor);
    assert IsBatch(v, anchor, batch);
  }

  /** Any finite set of stored vertices can be listed in commit order. */
  lemma {:induction false} ListEntries(v: View, s: set<Hash>) returns (entries: seq<CausalEntry>)
    requires s <= v.vertices.Keys
    ensures Lists(v, s, entries)
  {
    if s == {} {
      entries := [];
    } else {
      var h :| h in s;
      entries := ListEntries(v, s - {h});
      ListsExtend(v, s - {h}, entries, h);
      entries := entries + [CausalEntry(h, v.vertices[h].round)];
      assert s == (s - {h}) + {h};
    }
  }

  lemma ListBatch(v: View, s: set<Hash>, anchor: Hash) returns (batch: seq<Hash>)
    requires s == History(v, anchor)
    ensures IsBatch(v, anchor, batch)
  {
    assert s <= v.vertices.Keys;
    var entries := ListEntries(v, s);
    var sorted := Sort(entries);
    BatchOf(v, anchor, entries, sorted);
    batch := Hashes(sorted);
  }

  /** Rounds in an anchor's history do not exceed the anchor's. */
  lemma HistoryRounds(v: View, anchor: Hash)
    requires Layered(v.vertices) && anchor in v.vertices
    ensures forall h :: h in History(v, anchor) ==> v.vertices[h].round <= v.vertices[anchor].round
  {
    forall h | h in History(v, anchor) ensures v.vertices[h].round <= v.vertices[anchor].round {
      var n: nat :| ReachIn(v, anchor, h, n);
      WalkDescends(v, anchor, h, n);
    }
  }

  lemma DecideKeepsShape(dag: Graph, s: Chain, anchor: Hash)
    requires Inv(dag, s) && anchor in s.view.vertices && s.view.vertices[anchor].round <= s.cursor
    ensures Shape(dag, Decide(s, Some(anchor)))
  {
    var v := s.view;
    PartIsLayered(v.vertices, dag);
    BatchExists(v, anchor);
    HistoryRounds(v, anchor);
    var v' := Decide(s, Some(anchor)).view;
    assert v'.committed == v.committed + History(v, anchor);
    assert History(v, anchor) <= v.vertices.Keys;
    hide IsBatch, Batch, History;
    forall h, p | h in v'.committed && AboveFloor(v', h) && p in v'.vertices[h].parents && AboveFloor(v', p)
      ensures p in v'.committed
    {
      if h !in v.committed {
        HistoryLinks(v, anchor, h, p);
      } else {
        assert AboveFloor(v, h) && AboveFloor(v, p);
      }
    }
    forall h, p | Edge(v', h, p) ensures p in v'.vertices || p in v'.committed { assert Edge(v, h, p); }
  }

  /** A link out of an anchor's history ends in it, in the committed set, or below the floor. */
  lemma HistoryLinks(v: View, anchor: Hash, h: Hash, p: Hash)
    requires CausallyClosed(v) && h in History(v, anchor) && p in v.vertices[h].parents
    ensures p in v.committed || (p in v.vertices && BelowFloor(v, v.vertices[p].round)) || p in History(v, anchor)
  {
    assert Edge(v, h, p);
    ReachStep(v, anchor, h, p);
  }

  /** Indexed form of `x in s[..i]`. */
  lemma TakeContains<T>(s: seq<T>, i: nat, j: nat)
    requires j < i <= |s|
    ensures s[j] in s[..i]
  {
    assert s[..i][j] == s[j];
  }

  lemma DecideKeepsOrder(dag: Graph, s: Chain, anchor: Hash)
    requires Inv(dag, s)
    ensures LogOrdered(Decide(s, Some(anchor)))
  {
    hide IsBatch, Batch, History;
    var v, batch := s.view, Batch(s.view, anchor);
    var s' := Decide(s, Some(anchor));
    BatchExists(v, anchor);
    BatchFacts(v, anchor, batch);
    assert forall h :: h in s'.log <==> h in s.log || h in batch;
    assert forall h :: h in Elements(s.log) <==> h in s.log;
    forall i, p | 0 <= i < |s'.log| && p in s'.view.vertices[s'.log[i]].parents && AboveFloor(s'.view, p)
      ensures p in s'.base || p in s'.log[..i]
    {
      if i < |s.log| {
        assert s'.log[..i] == s.log[..i];
      } else {
        BatchParents(dag, s, anchor, batch, i - |s.log|, p);
        assert s'.log[..i] == s.log + batch[..i - |s.log|];
      }
    }
  }

  lemma BatchFacts(v: View, anchor: Hash, batch: seq<Hash>)
    requires IsBatch(v, anchor, batch)
    ensures forall h :: h in batch ==> Live(v, h)
    ensures forall i :: 0 <= i < |batch| ==> Live(v, batch[i])
    ensures forall i, j :: 0 <= i < j < |batch| ==> batch[i] != batch[j]
  {
    assert forall h :: h in batch ==> h in Elements(batch);
  }

  /** A parent of a batch vertex is committed already or listed before it. */
  lemma BatchParents(dag: Graph, s: Chain, anchor: Hash, batch: seq<Hash>, i: nat, p: Hash)
    requires Inv(dag, s) && IsBatch(s.view, anchor, batch) && i < |batch|
    requires p in s.view.vertices[batch[i]].parents && AboveFloor(s.view, p)
    ensures p in s.base || p in s.log || p in batch[..i]
  {
    var v := s.view;
    assert batch[i] in Elements(batch);
    HistoryLinks(v, anchor, batch[i], p);
    if p !in v.committed {
      assert p in Elements(batch);
      var j :| 0 <= j < |batch| && batch[j] == p;
      assert v.vertices[batch[j]].round < v.vertices[batch[i]].round;
      assert j < i;
      TakeContains(batch, i, j);
    } else {
      assert p in s.base || p in Elements(s.log);
    }
  }

  /** A vertex that arrives after one linking to it sits at or below the floor. */
  lemma LateParentBelowFloor(dag: Graph, s: Chain, s': Chain, h: Hash, x: Hash)
    requires Inv(dag, s) && Arrives(dag, s, s', h)
    requires x in s.view.vertices && h in s.view.vertices[x].parents
    ensures !AboveFloor(s'.view, h)
  {
  }

  lemma ArrivalKeepsInv(dag: Graph, s: Chain, s': Chain, h: Hash)
    requires Inv(dag, s) && Arrives(dag, s, s', h)
    ensures Inv(dag, s')
  {
    ArrivalKeepsShape(dag, s, s', h);
    ArrivalKeepsOrder(dag, s, s', h);
  }

  lemma ArrivalKeepsShape(dag: Graph, s: Chain, s': Chain, h: Hash)
    requires Inv(dag, s) && Arrives(dag, s, s', h)
    ensures Shape(dag, s')
  {
    var v, v' := s.view, s'.view;
    assert h !in v.committed;
    forall x, p | Edge(v', x, p) ensures p in v'.vertices || p in v'.committed {
      if x != h { assert Edge(v, x, p); }
    }
    forall x, p | x in v'.committed && AboveFloor(v', x) && p in v'.vertices[x].parents && AboveFloor(v', p)
      ensures p in v'.committed
    {
      if p == h { LateParentBelowFloor(dag, s, s', h, x); }
      else { assert AboveFloor(v, x) && AboveFloor(v, p); }
    }
  }

  lemma ArrivalKeepsOrder(dag: Graph, s: Chain, s': Chain, h: Hash)
    requires Inv(dag, s) && Arrives(dag, s, s', h)
    ensures LogOrdered(s')
  {
    var v, v' := s.view, s'.view;
    assert h !in v.committed;
    forall x, p | x in s.base && AboveFloor(v', x) && p in v'.vertices[x].parents && AboveFloor(v', p)
      ensures p in s.base
    {
      if p == h { LateParentBelowFloor(dag, s, s', h, x); }
      else { assert AboveFloor(v, x) && AboveFloor(v, p); }
    }
    forall i | 0 <= i < |s.log| ensures AboveFloor(v', s.log[i]) { assert AboveFloor(v, s.log[i]); }
    forall i, p | 0 <= i < |s.log| && p in v'.vertices[s.log[i]].parents && AboveFloor(v', p)
      ensures p in s.base || p in s.log[..i]
    {
      assert AboveFloor(v, s.log[i]);
      if p == h { LateParentBelowFloor(dag, s, s', h, s.log[i]); }
      else { assert AboveFloor(v, p); }
    }
  }

  lemma SkipKeepsInv(dag: Graph, s: Chain)
    requires Inv(dag, s)
    ensures Inv(dag, Decide(s, None))
  {
    var s' := Decide(s, None);
    assert s'.log == s.log && s'.view == s.view;
  }

  /** The vertex a decision commits sits at the queried round. */
  lemma CommittedAnchor(cfg: Config, v: View, round: nat, a: Hash)
    requires AnchorStatus(cfg, v, round) == Commit(a)
    ensures a in v.vertices && v.vertices[a].round == round
  {
    hide DirectVerdict, ResolveIndirect, MayScanPast;
    if DirectVerdict(cfg, v.vertices, round).Certified? {
      CertifiedMeans(cfg, v.vertices, round, a);
    } else {
      var at, x := ScanResolver(cfg, v, round, round + 1);
      ResolvedCandidate(cfg, v, round, x, a);
    }
  }

  lemma ResolvedCandidate(cfg: Config, v: View, round: nat, certified: Hash, a: Hash)
    requires ResolveIndirect(cfg, v, round, certified) == Commit(a)
    ensures a in v.vertices && v.vertices[a].round == round
  {
    hide History, DeadProducer, RelaxedSupporterPossible, Complete;
    assert a in Candidates(v.vertices, round, cfg.designated(round).value);
  }

  lemma StepKeepsInv(ctx: Context, dag: Graph, s: Chain, s': Chain)
    requires Inv(dag, s) && Step(ctx, dag, s, s')
    ensures Inv(dag, s')
  {
    hide Inv, Decide, Complete, AnchorStatus, Arrives;
    if h :| Arrives(dag, s, s', h) {
      ArrivalKeepsInv(dag, s, s', h);
    } else {
      match AnchorStatus(ctx(s.decisions), s.view, s.cursor) {
        case Wait =>
        case Skip => SkipKeepsInv(dag, s);
        case Commit(a) =>
          CommittedAnchor(ctx(s.decisions), s.view, s.cursor, a);
          CommitKeepsInv(dag, s, a);
      }
    }
  }

  lemma CommitKeepsInv(dag: Graph, s: Chain, a: Hash)
    requires Inv(dag, s) && a in s.view.vertices && s.view.vertices[a].round == s.cursor
    ensures Inv(dag, Decide(s, Some(a)))
  {
    DecideKeepsShape(dag, s, a);
    DecideKeepsOrder(dag, s, a);
    hide Shape, LogOrdered, Decide;
  }

  lemma {:induction false} RunKeepsInv(ctx: Context, dag: Graph, run: Run, i: nat)
    requires IsRun(ctx, dag, run) && i < |run|
    ensures Inv(dag, run[i])
  {
    if i > 0 {
      RunKeepsInv(ctx, dag, run, i - 1);
      hide Inv, Step, Start;
      StepKeepsInv(ctx, dag, run[i - 1], run[i]);
    }
  }

  // ---- Linear extension -----------------------------------------------------

  /** `k` is reached from `h` over parent links between vertices above the floor. */
  ghost predicate Ancestor(v: View, h: Hash, k: Hash, n: nat)
    decreases n
  {
    if n == 0 then h == k && AboveFloor(v, h)
    else exists p :: Ancestor(v, h, p, n - 1) && k in v.vertices[p].parents && AboveFloor(v, k)
  }

  /** In every reachable state the log is duplicate-free, and whatever above-floor
      ancestor a logged vertex has was imported as committed or logged before it. */
  lemma LogIsLinearExtension(ctx: Context, dag: Graph, run: Run, i: nat, at: nat, k: Hash, n: nat)
    requires IsRun(ctx, dag, run) && i < |run| && at < |run[i].log| && n > 0
    requires Ancestor(run[i].view, run[i].log[at], k, n)
    ensures k in run[i].base || exists j :: 0 <= j < at && run[i].log[j] == k
    ensures forall j :: 0 <= j < |run[i].log| && j != at ==> run[i].log[j] != run[i].log[at]
  {
    RunKeepsInv(ctx, dag, run, i);
    AncestorBefore(dag, run[i], at, k, n);
  }

  lemma {:induction false} AncestorBefore(dag: Graph, s: Chain, at: nat, k: Hash, n: nat)
    requires Inv(dag, s) && at < |s.log| && n > 0 && Ancestor(s.view, s.log[at], k, n)
    ensures k in s.base || exists j :: 0 <= j < at && s.log[j] == k
    decreases n
  {
    var p :| Ancestor(s.view, s.log[at], p, n - 1) && k in s.view.vertices[p].parents && AboveFloor(s.view, k);
    if n == 1 {
      assert k in s.base || k in s.log[..at];
    } else {
      AncestorBefore(dag, s, at, p, n - 1);
      if p in s.base {
        assert AboveFloor(s.view, p);
      } else {
        var j :| 0 <= j < at && s.log[j] == p;
        assert k in s.base || k in s.log[..j];
      }
    }
  }

  // ---- The log is a function of the decisions --------------------------------

  /** What a list of decisions yields on the whole DAG from a starting point. */
  ghost function Replay(dag: Graph, start: Chain, ds: seq<Option<Hash>>): Chain
  {
    if ds == [] then start.(view := start.view.(vertices := dag))
    else Decide(Replay(dag, start, ds[..|ds| - 1]), ds[|ds| - 1])
  }

  /** Two states that applied the same things, whatever else they store. */
  ghost predicate SameProgress(s: Chain, t: Chain)
  {
    && s.log == t.log && s.cursor == t.cursor && s.base == t.base && s.decisions == t.decisions
    && s.view.committed == t.view.committed && s.view.floor == t.view.floor
  }

  /** A batch depends on the committed set and the floor, not on what else is stored. */
  lemma BatchIsShared(dag: Graph, v: View, w: View, anchor: Hash)
    requires PartOf(v.vertices, dag) && w.vertices == dag && v.committed == w.committed && v.floor == w.floor
    requires Complete(v, anchor)
    ensures Batch(v, anchor) == Batch(w, anchor)
  {
    assert Complete(w, anchor) by {
      forall h | Reach(w, anchor, h) && h !in w.committed ensures h in w.vertices {
        var n: nat :| ReachIn(w, anchor, h, n);
        ReachIsShared(dag, w, v, anchor, h, n);
      }
    }
    HistoryIsShared(dag, v, w, anchor);
    BatchExists(v, anchor);
    BatchExists(w, anchor);
    BatchUnique(v, w, anchor, anchor, Batch(v, anchor), Batch(w, anchor));
  }

  lemma DecideAlike(dag: Graph, s: Chain, r: Chain, d: Option<Hash>)
    requires PartOf(s.view.vertices, dag) && r.view.vertices == dag && SameProgress(s, r)
    requires d.Some? ==> Complete(s.view, d.value)
    ensures SameProgress(Decide(s, d), Decide(r, d)) && Decide(r, d).view.vertices == dag
  {
    if d.Some? {
      BatchIsShared(dag, s.view, r.view, d.value);
      hide Batch, Complete, PartOf;
    }
  }

  /** In every reachable state, the log and the committed set are what replaying the
      recorded decisions over the whole DAG gives. */
  lemma {:induction false} LogIsReplay(ctx: Context, dag: Graph, run: Run, i: nat)
    requires IsRun(ctx, dag, run) && i < |run|
    ensures SameProgress(run[i], Replay(dag, run[0], run[i].decisions))
    ensures Replay(dag, run[0], run[i].decisions).view.vertices == dag
  {
    hide Shape, Step, Inv, Decide;
    if i > 0 {
      LogIsReplay(ctx, dag, run, i - 1);
      RunKeepsInv(ctx, dag, run, i - 1);
      hide Start, Replay, SameProgress;
      StepIsReplay(ctx, dag, run[0], run[i - 1], run[i]);
    }
  }

  lemma StepIsReplay(ctx: Context, dag: Graph, start: Chain, s: Chain, s': Chain)
    requires Inv(dag, s) && Step(ctx, dag, s, s')
    requires SameProgress(s, Replay(dag, start, s.decisions)) && Replay(dag, start, s.decisions).view.vertices == dag
    ensures SameProgress(s', Replay(dag, start, s'.decisions)) && Replay(dag, start, s'.decisions).view.vertices == dag
  {
    hide AnchorStatus, Batch, Complete;
    if h :| Arrives(dag, s, s', h) {
    } else {
      match AnchorStatus(ctx(s.decisions), s.view, s.cursor) {
        case Wait =>
        case Skip => ReplayStep(dag, start, s, None);
        case Commit(a) => if Complete(s.view, a) { ReplayStep(dag, start, s, Some(a)); }
      }
    }
  }

  lemma ReplayStep(dag: Graph, start: Chain, s: Chain, d: Option<Hash>)
    requires PartOf(s.view.vertices, dag) && (d.Some? ==> Complete(s.view, d.value))
    requires SameProgress(s, Replay(dag, start, s.decisions)) && Replay(dag, start, s.decisions).view.vertices == dag
    ensures var s' := Decide(s, d);
            SameProgress(s', Replay(dag, start, s'.decisions)) && Replay(dag, start, s'.decisions).view.vertices == dag
  {
    DecideAlike(dag, s, Replay(dag, start, s.decisions), d);
    var ds := s.decisions + [d];
    assert ds[..|ds| - 1] == s.decisions;
  }

  /** Two nodes starting from the same committed point and recording the same decisions
      hold the same log. */
  lemma SameDecisionsSameLog(ctx: Context, dag: Graph, a: Run, b: Run, i: nat, j: nat)
    requires IsRun(ctx, dag, a) && IsRun(ctx, dag, b) && i < |a| && j < |b| && SameProgress(a[0], b[0])
    requires a[i].decisions == b[j].decisions
    ensures SameProgress(a[i], b[j])
  {
    LogIsReplay(ctx, dag, a, i);
    LogIsReplay(ctx, dag, b, j);
    ReplayOfStart(dag, a[0], b[0], a[i].decisions);
  }

  lemma {:induction false} ReplayOfStart(dag: Graph, s: Chain, t: Chain, ds: seq<Option<Hash>>)
    requires SameProgress(s, t)
    ensures Replay(dag, s, ds) == Replay(dag, t, ds)
  {
    if ds != [] { ReplayOfStart(dag, s, t, ds[..|ds| - 1]); }
  }

  /** One log is a prefix of the other when one decision list is. */
  lemma {:induction false} ReplayGrows(dag: Graph, start: Chain, ds: seq<Option<Hash>>, n: nat)
    requires n <= |ds|
    ensures Replay(dag, start, ds[..n]).log <= Replay(dag, start, ds).log
  {
    if n == |ds| {
      assert ds[..n] == ds;
    } else {
      ReplayGrows(dag, start, ds[..|ds| - 1], n);
      assert ds[..|ds| - 1][..n] == ds[..n];
    }
  }

  // ---- Agreement over whole runs --------------------------------------------

  ghost predicate Comparable<T>(a: seq<T>, b: seq<T>)
  {
    a <= b || b <= a
  }

  /** The protocol hypotheses of the agreement lemmas, from round `n` through `top`. */
  ghost predicate Honest(cfg: Config, dag: Graph, n: nat, top: nat)
  {
    && HasParents(dag) && QuorumParents(cfg, dag, n + 2) && StrictAndHonest(cfg, dag, n, top)
    && forall p :: SingleVertex(dag, n, p)
  }

  /** The last round the next decision of a state rests on. */
  ghost function Reaches(ctx: Context, s: Chain): nat
  {
    Horizon(ctx(s.decisions), s.view.vertices, s.cursor)
  }

  /** Step `i` of a run decides a round. */
  ghost predicate Decides(ctx: Context, run: Run, i: int)
  {
    0 <= i < |run| - 1 && run[i + 1] == Tick(ctx, run[i]) && run[i + 1] != run[i]
  }

  /** The hypotheses hold for the rounds a run decides, each under its own context and no
      further than the decision reaches. */
  ghost predicate HonestRun(ctx: Context, dag: Graph, run: Run)
  {
    forall i :: Decides(ctx, run, i) ==> Honest(ctx(run[i].decisions), dag, run[i].cursor, Reaches(ctx, run[i]))
  }

  /** Both runs decide the same round next, from the same decisions. */
  ghost predicate DecideTogether(ctx: Context, a: Run, b: Run, i: int, j: int)
  {
    Decides(ctx, a, i) && Decides(ctx, b, j) && a[i].decisions == b[j].decisions
  }

  /** No round is decided on silence. */
  ghost predicate Unsilent(ctx: Context, a: Run, b: Run)
  {
    forall i, j :: DecideTogether(ctx, a, b, i, j) ==>
      && NoSilence(ctx(a[i].decisions), a[i].view.vertices, a[i].cursor, Reaches(ctx, a[i]))
      && NoSilence(ctx(a[i].decisions), b[j].view.vertices, a[i].cursor, Reaches(ctx, a[i]))
  }

  ghost predicate Forked(cfg: Config, s: Chain, t: Chain)
  {
    ForkShape(cfg, s.view, t.view, s.cursor) || ForkShape(cfg, t.view, s.view, s.cursor)
  }

  /** No round is decided by the two runs in a fork shape. */
  ghost predicate NoFork(ctx: Context, a: Run, b: Run)
  {
    forall i, j :: DecideTogether(ctx, a, b, i, j) ==> !Forked(ctx(a[i].decisions), a[i], b[j])
  }

  /** A reachable state is a node view for the round at its cursor. */
  lemma ReachableIsNodeView(dag: Graph, s: Chain)
    requires Inv(dag, s)
    ensures NodeView(dag, s.view, s.cursor) && Layered(dag)
  {
  }

  /** Two states at the same committed point that both decide, decide alike exactly when
      they show neither fork shape. */
  lemma TicksAgree(ctx: Context, dag: Graph, s: Chain, t: Chain)
    requires Inv(dag, s) && Inv(dag, t) && SameProgress(s, t)
    requires Honest(ctx(s.decisions), dag, s.cursor, Reaches(ctx, s))
    requires NoSilence(ctx(s.decisions), s.view.vertices, s.cursor, Reaches(ctx, s))
    requires NoSilence(ctx(s.decisions), t.view.vertices, s.cursor, Reaches(ctx, s))
    requires Tick(ctx, s) != s && Tick(ctx, t) != t
    ensures |Tick(ctx, s).decisions| == |Tick(ctx, t).decisions| == |s.decisions| + 1
    ensures Tick(ctx, s).decisions == Tick(ctx, t).decisions <==> !Forked(ctx(s.decisions), s, t)
  {
    hide AnchorStatus, ForkShape, NoSilence, NodeView, Complete, Batch, Inv, StrictAndHonest, QuorumParents,
      HasParents, SingleVertex, Horizon;
    ReachableIsNodeView(dag, s);
    ReachableIsNodeView(dag, t);
    DecisionsDifferIff(ctx(s.decisions), dag, s.view, t.view, s.cursor);
    TickRecords(ctx, s);
    TickRecords(ctx, t);
    var n := |s.decisions|;
    assert Tick(ctx, s).decisions[n] == Outcome(AnchorStatus(ctx(s.decisions), s.view, s.cursor));
    assert Tick(ctx, t).decisions[n] == Outcome(AnchorStatus(ctx(s.decisions), t.view, s.cursor));
  }

  /** What a deciding tick appends. */
  ghost function Outcome(d: Decision): Option<Hash>
  {
    if d.Commit? then Some(d.anchor) else None
  }

  lemma TickRecords(ctx: Context, s: Chain)
    requires Tick(ctx, s) != s
    ensures var status := AnchorStatus(ctx(s.decisions), s.view, s.cursor);
            status != Wait && Tick(ctx, s).decisions == s.decisions + [Outcome(status)]
  {
    hide AnchorStatus, Complete, Batch;
  }

  /** Where a run's decision list was exactly its first `k` entries, and about to grow. */
  lemma {:induction false} FindDecision(ctx: Context, dag: Graph, run: Run, j: nat, k: nat) returns (m: nat)
    requires IsRun(ctx, dag, run) && j < |run| && k < |run[j].decisions|
    ensures m < j && run[m].decisions == run[j].decisions[..k]
    ensures run[m + 1] == Tick(ctx, run[m]) && run[m + 1].decisions == run[j].decisions[..k + 1]
  {
    hide Tick, Start;
    StepDecisions(ctx, dag, run, j);
    if run[j].decisions == run[j - 1].decisions || k < |run[j - 1].decisions| {
      m := FindDecision(ctx, dag, run, j - 1, k);
      assert run[j - 1].decisions <= run[j].decisions;
      assert run[j].decisions[..k] == run[j - 1].decisions[..k];
      assert run[j].decisions[..k + 1] == run[j - 1].decisions[..k + 1];
    } else {
      m := j - 1;
      assert run[j].decisions[..k + 1] == run[j].decisions;
    }
  }

  /** A step leaves the decision list alone, or is a tick that appends one entry. */
  lemma StepDecisions(ctx: Context, dag: Graph, run: Run, j: nat)
    requires IsRun(ctx, dag, run) && j < |run| && run[j].decisions != []
    ensures j > 0
    ensures run[j].decisions == run[j - 1].decisions
         || (run[j] == Tick(ctx, run[j - 1]) && |run[j].decisions| == |run[j - 1].decisions| + 1
             && run[j].decisions[..|run[j - 1].decisions|] == run[j - 1].decisions)
  {
    hide AnchorStatus, Complete, Batch;
    assert Step(ctx, dag, run[j - 1], run[j]);
  }

  /** The states of two runs that decide together are at one committed point. */
  lemma TogetherAgree(ctx: Context, dag: Graph, a: Run, b: Run, i: int, j: int)
    requires IsRun(ctx, dag, a) && IsRun(ctx, dag, b) && SameProgress(a[0], b[0])
    requires HonestRun(ctx, dag, a) && Unsilent(ctx, a, b) && DecideTogether(ctx, a, b, i, j)
    ensures |a[i + 1].decisions| == |b[j + 1].decisions|
    ensures a[i + 1].decisions == b[j + 1].decisions <==> !Forked(ctx(a[i].decisions), a[i], b[j])
  {
    hide Tick, Honest, Forked, Start, NoSilence, Inv, Reaches;
    SameDecisionsSameLog(ctx, dag, a, b, i, j);
    RunKeepsInv(ctx, dag, a, i);
    RunKeepsInv(ctx, dag, b, j);
    TicksAgree(ctx, dag, a[i], b[j]);
  }

  /** Over whole runs: two nodes starting at one committed point that decide no round in a
      fork shape hold comparable decision lists. */
  lemma {:induction false} DecisionsComparable(ctx: Context, dag: Graph, a: Run, b: Run, i: nat, j: nat)
    requires IsRun(ctx, dag, a) && IsRun(ctx, dag, b) && i < |a| && j < |b| && SameProgress(a[0], b[0])
    requires HonestRun(ctx, dag, a) && Unsilent(ctx, a, b) && NoFork(ctx, a, b)
    ensures Comparable(a[i].decisions, b[j].decisions)
    decreases i
  {
    hide Tick, HonestRun, Unsilent, Forked, Start, SameProgress;
    if a[i].decisions != [] {
      StepDecisions(ctx, dag, a, i);
      DecisionsComparable(ctx, dag, a, b, i - 1, j);
      var before := a[i - 1].decisions;
      if a[i].decisions != before && |before| < |b[j].decisions| {
        var m := FindDecision(ctx, dag, b, j, |before|);
        assert b[m].decisions == before;
        assert a[i - 1 + 1] == a[i];
        assert DecideTogether(ctx, a, b, i - 1, m);
        TogetherAgree(ctx, dag, a, b, i - 1, m);
      }
    }
  }

  /** Two runs agree throughout exactly when no round is decided in a fork shape. */
  lemma RunsAgreeIff(ctx: Context, dag: Graph, a: Run, b: Run)
    requires IsRun(ctx, dag, a) && IsRun(ctx, dag, b) && SameProgress(a[0], b[0])
    requires HonestRun(ctx, dag, a) && Unsilent(ctx, a, b)
    ensures NoFork(ctx, a, b) <==>
              forall i, j :: 0 <= i < |a| && 0 <= j < |b| ==> Comparable(a[i].decisions, b[j].decisions)
  {
    hide Tick, HonestRun, Unsilent, Forked, IsRun, SameProgress;
    if NoFork(ctx, a, b) {
      forall i, j | 0 <= i < |a| && 0 <= j < |b| ensures Comparable(a[i].decisions, b[j].decisions) {
        DecisionsComparable(ctx, dag, a, b, i, j);
      }
    } else {
      var i, j :| DecideTogether(ctx, a, b, i, j) && Forked(ctx(a[i].decisions), a[i], b[j]);
      TogetherAgree(ctx, dag, a, b, i, j);
      assert !Comparable(a[i + 1].decisions, b[j + 1].decisions);
    }
  }

  /** And then one log is a prefix of the other. */
  lemma LogsAgree(ctx: Context, dag: Graph, a: Run, b: Run, i: nat, j: nat)
    requires IsRun(ctx, dag, a) && IsRun(ctx, dag, b) && i < |a| && j < |b| && SameProgress(a[0], b[0])
    requires HonestRun(ctx, dag, a) && Unsilent(ctx, a, b) && NoFork(ctx, a, b)
    ensures Comparable(a[i].log, b[j].log)
  {
    hide HonestRun, Unsilent, NoFork, Start, Step;
    DecisionsComparable(ctx, dag, a, b, i, j);
    LogIsReplay(ctx, dag, a, i);
    LogIsReplay(ctx, dag, b, j);
    var da, db := a[i].decisions, b[j].decisions;
    ReplayOfStart(dag, a[0], b[0], da);
    ReplayOfStart(dag, a[0], b[0], db);
    if da <= db {
      ReplayGrows(dag, a[0], db, |da|);
      assert db[..|da|] == da;
    } else {
      ReplayGrows(dag, a[0], da, |db|);
      assert da[..|db|] == db;
    }
  }
}
