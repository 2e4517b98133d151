/** What the anchor rule guarantees across nodes. Two nodes hold different parts of
    one DAG; the lemmas say how far their decisions for a round can differ.

    Hypotheses are named predicates: `NodeView` (a causally closed part of the DAG whose
    committed prefix ends below the round in question), `Stakes` (the quorum comparison
    does not saturate and equivocating stake is below one third) and `QuorumParents`. */
module AnchorSafety {
  import opened Common
  import opened Stake
  import opened Dag
  import opened Anchor

  /** A node deciding round `n`: its store is a causally closed part of the DAG, and
      everything it has committed, and its snapshot floor, lie below round `n`. */
  ghost predicate NodeView(dag: Graph, v: View, n: nat)
  {
    && PartOf(v.vertices, dag)
    && CausallyClosed(v)
    && (forall h :: h in v.committed ==> h in dag && dag[h].round < n)
    && (v.floor.Some? ==> v.floor.value < n)
  }

  /** Producers with two different vertices in one round. */
  ghost function Equivocators(dag: Graph, round: nat): set<Hash>
  {
    set h, k | h in dag && k in dag && h != k && dag[h].round == round && dag[k].round == round
            && dag[h].producer == dag[k].producer :: dag[h].producer
  }

  /** The snapshot weighing round `n`'s citations is exact, and equivocating
      stake among the citers is below one third of it. */
  ghost predicate Stakes(cfg: Config, dag: Graph, n: nat)
  {
    cfg.holders(n + 1).Some? ==>
      var b := Ballots(cfg.holders(n + 1).value, cfg.capMille);
      Exact(b) && UnderOneThird(b, Equivocators(dag, n + 1))
  }

  /** Producers of a vertex's parents. */
  ghost function ParentProducers(dag: Graph, h: Hash): set<Hash>
    requires h in dag
  {
    set p | p in dag[h].parents && p in dag :: dag[p].producer
  }

  /** The production rule: a vertex of round `r` links a strict quorum of round `r-1`,
      weighed by the snapshot of round `r-1`. */
  ghost predicate QuorumParents(cfg: Config, dag: Graph, r: nat)
    requires r > 0
  {
    cfg.holders(r - 1).Some? ==>
      forall h :: h in dag && dag[h].round == r ==>
        StrictQuorum(Ballots(cfg.holders(r - 1).value, cfg.capMille), ParentProducers(dag, h))
  }

  /** Every vertex above round 0 links at least one vertex of the DAG. */
  ghost predicate HasParents(dag: Graph)
  {
    forall h {:trigger Linked(dag, h)} :: h in dag && dag[h].round > 0 ==> Linked(dag, h)
  }

  ghost predicate Linked(dag: Graph, h: Hash)
    requires h in dag
  {
    exists p :: p in dag[h].parents && p in dag
  }

  ghost predicate SingleVertex(dag: Graph, round: nat, producer: Hash)
  {
    forall h, k :: h in Candidates(dag, round, producer) && k in Candidates(dag, round, producer) ==> h == k
  }

  // ---- One round, two views -------------------------------------------------

  /** A node that stores a citation stores the cited vertex. */
  lemma CitedIsCandidate(dag: Graph, b: View, n: nat, citing: Hash, vertex: Hash)
    requires NodeView(dag, b, n) && vertex in dag && dag[vertex].round == n
    requires citing in b.vertices && b.vertices[citing].round == n + 1 && vertex in b.vertices[citing].parents
    ensures vertex in Candidates(b.vertices, n, dag[vertex].producer)
    ensures b.vertices[citing].producer in Supporters(b.vertices, n, vertex)
  {
    assert Edge(b, citing, vertex);
  }

  /** A producer counted as citing a vertex in one view and as blaming its producer in
      another has signed two vertices of that round. */
  lemma SupportAndBlameEquivocates(dag: Graph, a: Graph, b: View, n: nat, vertex: Hash, q: Hash)
    requires PartOf(a, dag) && NodeView(dag, b, n)
    requires vertex in dag && dag[vertex].round == n
    requires q in Supporters(a, n, vertex)
    requires q in Blamers(b.vertices, n, Candidates(b.vertices, n, dag[vertex].producer))
    ensures q in Equivocators(dag, n + 1)
  {
    var x :| x in a && a[x].round == n + 1 && vertex in a[x].parents && a[x].producer == q;
    var y :| y in b.vertices && b.vertices[y].round == n + 1 && b.vertices[y].producer == q;
    if x == y {
      CitedIsCandidate(dag, b, n, y, vertex);
      assert false;
    }
    assert x in dag && y in dag && dag[x].round == dag[y].round == n + 1;
  }

  /** No two views of one DAG strictly certify and strictly blame the same round. */
  lemma CertifyBlameExclusive(cfg: Config, dag: Graph, a: Graph, b: View, n: nat, vertex: Hash)
    requires PartOf(a, dag) && NodeView(dag, b, n) && Stakes(cfg, dag, n) && !cfg.relaxed(n)
    requires DirectVerdict(cfg, a, n) == Certified(vertex)
    ensures DirectVerdict(cfg, b.vertices, n) != Blamed
  {
    CertifiedMeans(cfg, a, n, vertex);
    var ballots := Ballots(cfg.holders(n + 1).value, cfg.capMille);
    var blamers := Blamers(b.vertices, n, Candidates(b.vertices, n, dag[vertex].producer));
    if StrictQuorum(ballots, blamers) {
      var q := QuorumIntersection(ballots, Supporters(a, n, vertex), blamers, Equivocators(dag, n + 1));
      SupportAndBlameEquivocates(dag, a, b, n, vertex, q);
      assert false;
    }
  }

  /** Without equivocation among the citers, a round one view's stored blame rules out
      is certified in no view, however much more it holds. */
  lemma BlameRuledOutIsFinal(cfg: Config, dag: Graph, a: Graph, b: View, n: nat)
    requires PartOf(a, dag) && NodeView(dag, b, n) && !cfg.relaxed(n)
    requires cfg.designated(n).Some? && cfg.holders(n + 1).Some?
    requires Exact(Ballots(cfg.holders(n + 1).value, cfg.capMille)) && Equivocators(dag, n + 1) == {}
    requires RuledOut(Ballots(cfg.holders(n + 1).value, cfg.capMille),
                      Blamers(b.vertices, n, Candidates(b.vertices, n, cfg.designated(n).value)))
    ensures !DirectVerdict(cfg, a, n).Certified?
  {
    if DirectVerdict(cfg, a, n).Certified? {
      var vertex := DirectVerdict(cfg, a, n).vertex;
      CertifiedMeans(cfg, a, n, vertex);
      var blamers := Blamers(b.vertices, n, Candidates(b.vertices, n, cfg.designated(n).value));
      var supporters := Supporters(a, n, vertex);
      assert supporters !! blamers by {
        forall q | q in supporters && q in blamers ensures false {
          SupportAndBlameEquivocates(dag, a, b, n, vertex, q);
        }
      }
      RuledOutExcludesQuorum(Ballots(cfg.holders(n + 1).value, cfg.capMille), blamers, supporters);
      assert false;
    }
  }

  // ---- Carry ----------------------------------------------------------------

  /** The live part of a view: links of a vertex at or above `n` are walked. */
  lemma EdgeAbove(dag: Graph, v: View, n: nat, h: Hash, p: Hash)
    requires NodeView(dag, v, n) && h in v.vertices && v.vertices[h].round > n && p in v.vertices[h].parents
    requires Layered(dag) && p in dag
    ensures Edge(v, h, p) && p in v.vertices && dag[p].round + 1 == dag[h].round
  {
    assert Edge(v, h, p);
  }

  /** A vertex strictly certified at round `n` anywhere is in the causal history, as
      every node walks it, of every vertex two or more rounds above. */
  lemma {:induction false} Carry(cfg: Config, dag: Graph, a: Graph, v: View, n: nat, vertex: Hash, h: Hash)
    requires PartOf(a, dag) && NodeView(dag, v, n) && Stakes(cfg, dag, n) && !cfg.relaxed(n)
    requires Layered(dag) && HasParents(dag) && QuorumParents(cfg, dag, n + 2)
    requires DirectVerdict(cfg, a, n) == Certified(vertex)
    requires h in v.vertices && v.vertices[h].round >= n + 2
    ensures vertex in History(v, h)
    decreases if h in v.vertices then v.vertices[h].round else 0
  {
    hide DirectVerdict;
    if v.vertices[h].round == n + 2 {
      CarryTwoUp(cfg, dag, a, v, n, vertex, h);
    } else {
      assert Linked(dag, h);
      var p :| p in dag[h].parents && p in dag;
      EdgeAbove(dag, v, n, h, p);
      Carry(cfg, dag, a, v, n, vertex, p);
      ReachVia(v, h, p, vertex);
    }
  }

  lemma CarryTwoUp(cfg: Config, dag: Graph, a: Graph, v: View, n: nat, vertex: Hash, h: Hash)
    requires PartOf(a, dag) && NodeView(dag, v, n) && Stakes(cfg, dag, n) && !cfg.relaxed(n)
    requires Layered(dag) && QuorumParents(cfg, dag, n + 2)
    requires DirectVerdict(cfg, a, n) == Certified(vertex)
    requires h in v.vertices && v.vertices[h].round == n + 2
    ensures vertex in History(v, h)
  {
    CertifiedMeans(cfg, a, n, vertex);
    hide DirectVerdict;
    var ballots := Ballots(cfg.holders(n + 1).value, cfg.capMille);
    var q := QuorumIntersection(ballots, Supporters(a, n, vertex), ParentProducers(dag, h), Equivocators(dag, n + 1));
    var citing :| citing in a && a[citing].round == n + 1 && vertex in a[citing].parents && a[citing].producer == q;
    var p :| p in dag[h].parents && p in dag && dag[p].producer == q;
    EdgeAbove(dag, v, n, h, p);
    assert citing == p;
    EdgeAbove(dag, v, n, p, vertex);
    ReachSelf(v, h);
    ReachStep(v, h, h, p);
    ReachStep(v, h, p, vertex);
  }

  // ---- The whole scan -------------------------------------------------------

  /** The one way a view misses a certified round: it found the round undecided, and the
      round just above is certified for it by a vertex that does not cite it. */
  ghost predicate AdjacentOmits(cfg: Config, v: View, n: nat, vertex: Hash)
  {
    && DirectVerdict(cfg, v.vertices, n) == Undecided
    && var next := DirectVerdict(cfg, v.vertices, n + 1);
       next.Certified? && next.vertex in v.vertices && vertex !in v.vertices[next.vertex].parents
  }

  /** Some part `a` of the DAG strictly certifies `vertex`, the only round-`n` vertex of
      its producer, under the protocol's standing hypotheses. */
  ghost predicate CertifiedBy(cfg: Config, dag: Graph, a: Graph, n: nat, vertex: Hash)
  {
    && PartOf(a, dag) && Layered(dag) && HasParents(dag)
    && Stakes(cfg, dag, n) && QuorumParents(cfg, dag, n + 2) && !cfg.relaxed(n)
    && DirectVerdict(cfg, a, n) == Certified(vertex)
    && vertex in dag && SingleVertex(dag, n, dag[vertex].producer)
  }

  /** One view strictly certifies `vertex` at round `n`. Then every other view commits
      that vertex, waits, or skips; and it skips exactly when the adjacent round is
      certified for it by a vertex that omits the certified one. */
  lemma CertifiedRoundOutcome(cfg: Config, dag: Graph, a: Graph, v: View, n: nat, vertex: Hash)
    requires CertifiedBy(cfg, dag, a, n, vertex) && NodeView(dag, v, n)
    ensures AnchorStatus(cfg, v, n).Commit? ==> AnchorStatus(cfg, v, n) == Commit(vertex)
    ensures AnchorStatus(cfg, v, n).Skip? <==> AdjacentOmits(cfg, v, n, vertex)
  {
    hide DirectVerdict, ResolveIndirect, MayScanPast, CertifiedBy, NodeView;
    DirectOutcome(cfg, dag, a, v, n, vertex);
    if DirectVerdict(cfg, v.vertices, n) == Undecided {
      UndecidedOutcome(cfg, dag, a, v, n, vertex);
    }
  }

  /** Directly, another view certifies the same vertex or is undecided. */
  lemma DirectOutcome(cfg: Config, dag: Graph, a: Graph, v: View, n: nat, vertex: Hash)
    requires CertifiedBy(cfg, dag, a, n, vertex) && NodeView(dag, v, n)
    ensures DirectVerdict(cfg, v.vertices, n) in {Undecided, Certified(vertex)}
  {
    hide DirectVerdict, Stakes, QuorumParents, Certifies, CausallyClosed, Layered, Supporters, Candidates;
    CertifyBlameExclusive(cfg, dag, a, v, n, vertex);
    SameStakeResolves(cfg, a, v.vertices, n);
    CertifiedMeans(cfg, a, n, vertex);
    if DirectVerdict(cfg, v.vertices, n).Certified? {
      var x := DirectVerdict(cfg, v.vertices, n).vertex;
      CertifiedMeans(cfg, v.vertices, n, x);
      CertifiedIsCandidate(cfg, v.vertices, n, x);
      OnlyCandidate(cfg, dag, a, v, n, vertex);
    }
  }

  lemma CertifiedIsCandidate(cfg: Config, g: Graph, n: nat, vertex: Hash)
    requires DirectVerdict(cfg, g, n) == Certified(vertex)
    ensures cfg.designated(n).Some? && vertex in Candidates(g, n, cfg.designated(n).value)
  {
    CertifiedMeans(cfg, g, n, vertex);
  }

  /** Whether a round's stake set resolves does not depend on the stored vertices. */
  lemma SameStakeResolves(cfg: Config, a: Graph, b: Graph, n: nat)
    ensures DirectVerdict(cfg, a, n).NoStake? <==> DirectVerdict(cfg, b, n).NoStake?
  {
  }

  lemma UndecidedOutcome(cfg: Config, dag: Graph, a: Graph, v: View, n: nat, vertex: Hash)
    requires CertifiedBy(cfg, dag, a, n, vertex) && NodeView(dag, v, n)
    requires DirectVerdict(cfg, v.vertices, n) == Undecided
    ensures AnchorStatus(cfg, v, n).Commit? ==> AnchorStatus(cfg, v, n) == Commit(vertex)
    ensures AnchorStatus(cfg, v, n).Skip? <==> AdjacentOmits(cfg, v, n, vertex)
  {
    hide DirectVerdict, ResolveIndirect, MayScanPast, CertifiedBy, NodeView, Certifies, Supporters;
    if AnchorStatus(cfg, v, n) != Wait {
      var at, anchor := ScanResolver(cfg, v, n, n + 1);
      CertifiedMeans(cfg, v.vertices, at, anchor);
      ResolvedOutcome(cfg, dag, a, v, n, vertex, at, anchor);
      assert at > n + 1 ==> !DirectVerdict(cfg, v.vertices, n + 1).Certified?;
    }
    if AdjacentOmits(cfg, v, n, vertex) {
      var anchor := DirectVerdict(cfg, v.vertices, n + 1).vertex;
      CertifiedMeans(cfg, v.vertices, n + 1, anchor);
      assert Scan(cfg, v, n, n + 1) == ResolveIndirect(cfg, v, n, anchor);
      ResolvedOutcome(cfg, dag, a, v, n, vertex, n + 1, anchor);
    }
  }

  /** Resolving through an anchor: two or more rounds up it commits the certified
      vertex, one round up it does so exactly when the anchor cites it. */
  lemma ResolvedOutcome(cfg: Config, dag: Graph, a: Graph, v: View, n: nat, vertex: Hash, at: nat, anchor: Hash)
    requires CertifiedBy(cfg, dag, a, n, vertex) && NodeView(dag, v, n)
    requires at > n && anchor in v.vertices && v.vertices[anchor].round == at
    ensures ResolveIndirect(cfg, v, n, anchor) ==
              if at >= n + 2 || vertex in v.vertices[anchor].parents then Commit(vertex) else Skip
  {
    CarriedExactly(cfg, dag, a, v, n, vertex, at, anchor);
    ClosedIsComplete(v, anchor);
    CertifiedMeans(cfg, a, n, vertex);
    assert !cfg.relaxed(n);
    hide DirectVerdict, CertifiedBy, NodeView, Candidates, History, Complete;
  }

  /** The anchor's history holds the certified vertex, or none of its producer's. */
  lemma CarriedExactly(cfg: Config, dag: Graph, a: Graph, v: View, n: nat, vertex: Hash, at: nat, anchor: Hash)
    requires CertifiedBy(cfg, dag, a, n, vertex) && NodeView(dag, v, n)
    requires at > n && anchor in v.vertices && v.vertices[anchor].round == at
    ensures cfg.designated(n).Some?
    ensures Candidates(v.vertices, n, cfg.designated(n).value) * History(v, anchor) ==
              if at >= n + 2 || vertex in v.vertices[anchor].parents then {vertex} else {}
  {
    OnlyCandidate(cfg, dag, a, v, n, vertex);
    CarriedIff(cfg, dag, a, v, n, vertex, at, anchor);
    hide *;
  }

  lemma OnlyCandidate(cfg: Config, dag: Graph, a: Graph, v: View, n: nat, vertex: Hash)
    requires CertifiedBy(cfg, dag, a, n, vertex) && NodeView(dag, v, n)
    ensures cfg.designated(n).Some?
    ensures Candidates(v.vertices, n, cfg.designated(n).value) ==
              if vertex in v.vertices then {vertex} else {}
  {
    hide DirectVerdict, Stakes, QuorumParents, Certifies, CausallyClosed, Layered, Supporters;
    CertifiedMeans(cfg, a, n, vertex);
    CandidateOfPart(dag, v.vertices, n, vertex);
  }

  lemma CandidateOfPart(dag: Graph, g: Graph, n: nat, vertex: Hash)
    requires PartOf(g, dag) && vertex in dag && dag[vertex].round == n && SingleVertex(dag, n, dag[vertex].producer)
    ensures Candidates(g, n, dag[vertex].producer) == if vertex in g then {vertex} else {}
  {
    assert vertex in Candidates(dag, n, dag[vertex].producer);
    assert forall h :: h in Candidates(g, n, dag[vertex].producer) ==> h in Candidates(dag, n, dag[vertex].producer);
  }

  lemma CarriedIff(cfg: Config, dag: Graph, a: Graph, v: View, n: nat, vertex: Hash, at: nat, anchor: Hash)
    requires CertifiedBy(cfg, dag, a, n, vertex) && NodeView(dag, v, n)
    requires at > n && anchor in v.vertices && v.vertices[anchor].round == at
    ensures vertex in History(v, anchor) <==> at >= n + 2 || vertex in v.vertices[anchor].parents
    ensures vertex in History(v, anchor) ==> vertex in v.vertices
  {
    CertifiedMeans(cfg, a, n, vertex);
    hide DirectVerdict;
    if at >= n + 2 {
      Carry(cfg, dag, a, v, n, vertex, anchor);
    } else if vertex in v.vertices[anchor].parents {
      EdgeAbove(dag, v, n, anchor, vertex);
      ReachSelf(v, anchor);
      ReachStep(v, anchor, anchor, vertex);
    } else if vertex in History(v, anchor) {
      OneRoundUp(dag, v, n, vertex, anchor);
    }
  }

  /** One round up, history reaches a vertex only by a direct link. */
  lemma OneRoundUp(dag: Graph, v: View, n: nat, vertex: Hash, anchor: Hash)
    requires NodeView(dag, v, n) && Layered(dag)
    requires anchor in v.vertices && v.vertices[anchor].round == n + 1
    requires vertex in History(v, anchor) && v.vertices[vertex].round == n
    ensures vertex in v.vertices[anchor].parents
  {
    var steps: nat :| ReachIn(v, anchor, vertex, steps);
    WalkDescends(v, anchor, vertex, steps);
    assert steps == 1;
    var mid :| ReachIn(v, anchor, mid, steps - 1) && Edge(v, mid, vertex);
  }

  // ---- Two undecided views --------------------------------------------------

  /** From round `n` through `top` the strict rule decides, every stake set compares
      exactly, and above `n` no producer equivocates. */
  ghost predicate StrictAndHonest(cfg: Config, dag: Graph, n: nat, top: nat)
  {
    && (forall r :: n <= r <= top ==> !cfg.relaxed(r))
    && (forall r :: n < r <= top && cfg.holders(r).Some? ==> Exact(Ballots(cfg.holders(r).value, cfg.capMille)))
    && (forall r :: n < r <= top ==> Equivocators(dag, r) == {})
  }

  /** No holder reads as silent above round `n`, up to `top`. */
  ghost predicate NoSilence(cfg: Config, g: Graph, n: nat, top: nat)
  {
    forall r :: n + 1 < r <= top && cfg.holders(r).Some? ==> Silent(g, cfg.holders(r).value, r) == {}
  }

  /** `x` is the first vertex certified above round `n`. */
  ghost predicate FirstCertified(cfg: Config, g: Graph, n: nat, k: nat, x: Hash)
  {
    && k > n && DirectVerdict(cfg, g, k) == Certified(x)
    && forall j :: n < j < k ==> !DirectVerdict(cfg, g, j).Certified?
  }

  ghost predicate ResolvesAt(cfg: Config, g: Graph, n: nat, k: nat)
  {
    exists x: Hash :: FirstCertified(cfg, g, n, k, x)
  }

  /** The last round a decision of round `n` rests on: the citers of the round itself when
      it is decided directly, those of the first vertex certified above it otherwise. */
  ghost function Horizon(cfg: Config, g: Graph, n: nat): (top: nat)
  {
    if DirectVerdict(cfg, g, n) == Undecided && exists k: nat :: ResolvesAt(cfg, g, n, k) then
      var k: nat :| ResolvesAt(cfg, g, n, k);
      k + 1
    else n + 1
  }

  lemma HorizonIsAbove(cfg: Config, g: Graph, n: nat)
    ensures Horizon(cfg, g, n) > n
  {
    hide DirectVerdict;
  }

  lemma HorizonIs(cfg: Config, g: Graph, n: nat, k: nat, x: Hash)
    requires DirectVerdict(cfg, g, n) == Undecided && FirstCertified(cfg, g, n, k, x)
    ensures Horizon(cfg, g, n) == k + 1
  {
    hide DirectVerdict, ResolvesAt;
    Resolved(cfg, g, n, k, x);
    var j: nat :| ResolvesAt(cfg, g, n, j) && Horizon(cfg, g, n) == j + 1;
    var y := ResolverOf(cfg, g, n, j);
    OneFirst(cfg, g, n, j, y, k, x);
  }

  lemma Resolved(cfg: Config, g: Graph, n: nat, k: nat, x: Hash)
    requires FirstCertified(cfg, g, n, k, x)
    ensures ResolvesAt(cfg, g, n, k)
  {
    hide FirstCertified;
  }

  lemma ResolverOf(cfg: Config, g: Graph, n: nat, k: nat) returns (x: Hash)
    requires ResolvesAt(cfg, g, n, k)
    ensures FirstCertified(cfg, g, n, k, x)
  {
    hide FirstCertified;
    x :| FirstCertified(cfg, g, n, k, x);
  }

  lemma OneFirst(cfg: Config, g: Graph, n: nat, j: nat, y: Hash, k: nat, x: Hash)
    requires FirstCertified(cfg, g, n, j, y) && FirstCertified(cfg, g, n, k, x)
    ensures j == k && y == x
  {
    hide DirectVerdict;
  }

  /** A round one view certifies is never scanned past by another. */
  lemma CertifiedStopsTheScan(cfg: Config, dag: Graph, a: Graph, b: View, n: nat, k: nat, vertex: Hash)
    requires PartOf(a, dag) && NodeView(dag, b, n) && StrictAndHonest(cfg, dag, n, k + 1) && k > n
    requires NoSilence(cfg, b.vertices, n, k + 1)
    requires DirectVerdict(cfg, a, k) == Certified(vertex)
    ensures DirectVerdict(cfg, b.vertices, k) != Blamed
    ensures !MayScanPast(cfg, b.vertices, n, k)
  {
    CertifiedMeans(cfg, a, k, vertex);
    assert NodeView(dag, b, k);
    var ballots := Ballots(cfg.holders(k + 1).value, cfg.capMille);
    EmptyWeight(ballots, {});
    assert Stakes(cfg, dag, k);
    CertifyBlameExclusive(cfg, dag, a, b, k, vertex);
    if RuledOut(ballots, Blamers(b.vertices, k, Candidates(b.vertices, k, cfg.designated(k).value))) {
      BlameRuledOutIsFinal(cfg, dag, a, b, k);
      assert false;
    }
    assert Silent(b.vertices, cfg.holders(k + 1).value, k + 1) == {};
  }

  /** Two views that both find round `n` undecided and both resolve it by a later anchor,
      without silence evidence, resolve it through the same anchor and alike. The hypotheses
      reach no further than the citers of the anchor one of them resolves through. */
  lemma IndirectAgreement(cfg: Config, dag: Graph, a: View, b: View, n: nat)
    requires NodeView(dag, a, n) && NodeView(dag, b, n)
    requires StrictAndHonest(cfg, dag, n, Horizon(cfg, a.vertices, n))
    requires a.committed == b.committed && a.floor == b.floor
    requires NoSilence(cfg, a.vertices, n, Horizon(cfg, a.vertices, n))
    requires NoSilence(cfg, b.vertices, n, Horizon(cfg, a.vertices, n))
    requires DirectVerdict(cfg, a.vertices, n) == Undecided && DirectVerdict(cfg, b.vertices, n) == Undecided
    requires AnchorStatus(cfg, a, n) != Wait && AnchorStatus(cfg, b, n) != Wait
    ensures AnchorStatus(cfg, a, n) == AnchorStatus(cfg, b, n)
  {
    hide DirectVerdict, ResolveIndirect, MayScanPast, StrictAndHonest, NodeView, NoSilence, Certifies, Supporters,
      Horizon;
    var ka, x := ScanResolver(cfg, a, n, n + 1);
    var kb, y := ScanResolver(cfg, b, n, n + 1);
    assert FirstCertified(cfg, a.vertices, n, ka, x);
    HorizonIs(cfg, a.vertices, n, ka, x);
    FirstCertifiedIsShared(cfg, dag, a, b, n, ka, x, kb, y);
    StrictAt(cfg, dag, n, ka + 1);
    ResolvedAlike(cfg, dag, a, b, n, x);
  }

  lemma StrictAt(cfg: Config, dag: Graph, n: nat, top: nat)
    requires StrictAndHonest(cfg, dag, n, top) && n <= top
    ensures !cfg.relaxed(n)
  {
  }

  lemma FirstCertifiedIsShared(cfg: Config, dag: Graph, a: View, b: View, n: nat, ka: nat, x: Hash, kb: nat, y: Hash)
    requires NodeView(dag, a, n) && NodeView(dag, b, n) && StrictAndHonest(cfg, dag, n, ka + 1)
    requires NoSilence(cfg, a.vertices, n, ka + 1) && NoSilence(cfg, b.vertices, n, ka + 1)
    requires ka > n && DirectVerdict(cfg, a.vertices, ka) == Certified(x)
    requires kb > n && DirectVerdict(cfg, b.vertices, kb) == Certified(y)
    requires forall k :: n < k < ka ==>
              DirectVerdict(cfg, a.vertices, k) == Blamed || MayScanPast(cfg, a.vertices, n, k)
    requires forall k :: n < k < kb ==>
              DirectVerdict(cfg, b.vertices, k) == Blamed || MayScanPast(cfg, b.vertices, n, k)
    ensures ka == kb && x == y && x in a.vertices && x in b.vertices
  {
    hide DirectVerdict, MayScanPast, CausallyClosed, Certifies, Supporters;
    if ka < kb {
      CertifiedStopsTheScan(cfg, dag, a.vertices, b, n, ka, x);
      assert false;
    }
    if kb < ka {
      CertifiedStopsTheScan(cfg, dag, b.vertices, a, n, kb, y);
      assert false;
    }
    CertifiedMeans(cfg, a.vertices, ka, x);
    CertifiedMeans(cfg, b.vertices, kb, y);
    TwoVerticesEquivocate(dag, ka, x, y);
  }

  lemma TwoVerticesEquivocate(dag: Graph, round: nat, x: Hash, y: Hash)
    requires x in dag && y in dag && dag[x].round == round && dag[y].round == round
    requires dag[x].producer == dag[y].producer
    ensures x != y ==> dag[x].producer in Equivocators(dag, round)
  {
  }

  /** The same anchor resolves a round alike for two views with the same committed prefix. */
  lemma ResolvedAlike(cfg: Config, dag: Graph, a: View, b: View, n: nat, anchor: Hash)
    requires NodeView(dag, a, n) && NodeView(dag, b, n) && !cfg.relaxed(n)
    requires a.committed == b.committed && a.floor == b.floor
    requires anchor in a.vertices && anchor in b.vertices
    ensures ResolveIndirect(cfg, a, n, anchor) == ResolveIndirect(cfg, b, n, anchor)
  {
    ClosedIsComplete(a, anchor);
    ClosedIsComplete(b, anchor);
    HistoryIsShared(dag, a, b, anchor);
    if cfg.designated(n).Some? {
      var p := cfg.designated(n).value;
      CarriedIsShared(dag, a, b, n, p, anchor);
      hide Candidates, History, Complete, NodeView;
    }
  }

  lemma CarriedIsShared(dag: Graph, a: View, b: View, n: nat, p: Hash, anchor: Hash)
    requires PartOf(a.vertices, dag) && PartOf(b.vertices, dag) && History(a, anchor) == History(b, anchor)
    ensures Candidates(a.vertices, n, p) * History(a, anchor) == Candidates(b.vertices, n, p) * History(b, anchor)
  {
    assert forall h :: h in History(a, anchor) ==> h in a.vertices;
    assert forall h :: h in History(b, anchor) ==> h in b.vertices;
  }

  // ---- Where two decided views can differ -----------------------------------

  /** The first vertex certified above round `n` has a candidate of round `n` in its history. */
  ghost predicate ResolverCarries(cfg: Config, v: View, n: nat)
  {
    && cfg.designated(n).Some?
    && exists k, x ::
      && FirstCertified(cfg, v.vertices, n, k, x)
      && Candidates(v.vertices, n, cfg.designated(n).value) * History(v, x) != {}
  }

  /** A node past waiting on an undecided round commits it exactly when the first vertex
      certified above it carries a candidate. */
  lemma CommitsIffCarried(cfg: Config, v: View, n: nat)
    requires DirectVerdict(cfg, v.vertices, n) == Undecided && AnchorStatus(cfg, v, n) != Wait
    ensures AnchorStatus(cfg, v, n).Commit? <==> ResolverCarries(cfg, v, n)
  {
    hide DirectVerdict, MayScanPast, ResolveIndirect, Candidates, History;
    var k, x := ScanResolver(cfg, v, n, n + 1);
    assert FirstCertified(cfg, v.vertices, n, k, x);
    ResolvedByCarrying(cfg, v, n, x);
    if ResolverCarries(cfg, v, n) {
      var j, y :|
        && FirstCertified(cfg, v.vertices, n, j, y)
        && Candidates(v.vertices, n, cfg.designated(n).value) * History(v, y) != {};
      assert j == k && y == x;
    }
  }

  lemma ResolvedByCarrying(cfg: Config, v: View, n: nat, x: Hash)
    requires ResolveIndirect(cfg, v, n, x) != Wait
    ensures ResolveIndirect(cfg, v, n, x).Commit? <==>
              cfg.designated(n).Some? && Candidates(v.vertices, n, cfg.designated(n).value) * History(v, x) != {}
  {
    hide Candidates, History, Complete, DeadProducer, RelaxedSupporterPossible;
  }

  /** `a` decides the round by a direct certificate that `b`'s adjacent anchor omits, or by
      direct blame while the first vertex `b` certifies above it carries a candidate. */
  ghost predicate ForkShape(cfg: Config, a: View, b: View, n: nat)
  {
    || (DirectVerdict(cfg, a.vertices, n).Certified?
        && AdjacentOmits(cfg, b, n, DirectVerdict(cfg, a.vertices, n).vertex))
    || (DirectVerdict(cfg, a.vertices, n).Blamed?
        && DirectVerdict(cfg, b.vertices, n).Undecided? && ResolverCarries(cfg, b, n))
  }

  /** Two nodes at the same committed prefix, both past waiting, decide round `n` alike
      except in exactly those two shapes. */
  lemma DecisionsDifferIff(cfg: Config, dag: Graph, a: View, b: View, n: nat)
    requires NodeView(dag, a, n) && NodeView(dag, b, n) && a.committed == b.committed && a.floor == b.floor
    requires Layered(dag) && HasParents(dag) && QuorumParents(cfg, dag, n + 2)
    requires StrictAndHonest(cfg, dag, n, Horizon(cfg, a.vertices, n))
    requires forall p :: SingleVertex(dag, n, p)
    requires NoSilence(cfg, a.vertices, n, Horizon(cfg, a.vertices, n))
    requires NoSilence(cfg, b.vertices, n, Horizon(cfg, a.vertices, n))
    requires AnchorStatus(cfg, a, n) != Wait && AnchorStatus(cfg, b, n) != Wait
    ensures AnchorStatus(cfg, a, n) != AnchorStatus(cfg, b, n)
       <==> ForkShape(cfg, a, b, n) || ForkShape(cfg, b, a, n)
  {
    hide DirectVerdict, ResolveIndirect, MayScanPast, StrictAndHonest, NodeView, NoSilence, Layered, Horizon,
      HasParents, QuorumParents, CertifiedBy, ResolverCarries;
    HorizonIsAbove(cfg, a.vertices, n);
    SameStakeResolves(cfg, a.vertices, b.vertices, n);
    if DirectVerdict(cfg, a.vertices, n) == Undecided { CommitsIffCarried(cfg, a, n); }
    if DirectVerdict(cfg, b.vertices, n) == Undecided { CommitsIffCarried(cfg, b, n); }
    if DirectVerdict(cfg, a.vertices, n).Certified? {
      HonestCertificate(cfg, dag, a, n, Horizon(cfg, a.vertices, n));
      CertifiedRoundOutcome(cfg, dag, a.vertices, b, n, DirectVerdict(cfg, a.vertices, n).vertex);
      DirectOutcome(cfg, dag, a.vertices, b, n, DirectVerdict(cfg, a.vertices, n).vertex);
    } else if DirectVerdict(cfg, b.vertices, n).Certified? {
      HonestCertificate(cfg, dag, b, n, Horizon(cfg, a.vertices, n));
      CertifiedRoundOutcome(cfg, dag, b.vertices, a, n, DirectVerdict(cfg, b.vertices, n).vertex);
      DirectOutcome(cfg, dag, b.vertices, a, n, DirectVerdict(cfg, b.vertices, n).vertex);
    } else if DirectVerdict(cfg, a.vertices, n) == DirectVerdict(cfg, b.vertices, n) == Undecided {
      IndirectAgreement(cfg, dag, a, b, n);
    }
  }

  lemma HonestCertificate(cfg: Config, dag: Graph, a: View, n: nat, top: nat)
    requires NodeView(dag, a, n) && StrictAndHonest(cfg, dag, n, top) && top > n
    requires Layered(dag) && HasParents(dag) && QuorumParents(cfg, dag, n + 2)
    requires forall p :: SingleVertex(dag, n, p)
    requires DirectVerdict(cfg, a.vertices, n).Certified?
    ensures CertifiedBy(cfg, dag, a.vertices, n, DirectVerdict(cfg, a.vertices, n).vertex)
  {
    hide DirectVerdict, CausallyClosed, QuorumParents, HasParents, Layered, SingleVertex;
    var vertex := DirectVerdict(cfg, a.vertices, n).vertex;
    CertifiedMeans(cfg, a.vertices, n, vertex);
    EmptyWeight(Ballots(cfg.holders(n + 1).value, cfg.capMille), {});
  }
}
