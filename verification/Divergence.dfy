/** Both fork shapes of `AnchorSafety.ForkShape` occur: four equal validators, no
    equivocation, quorum parents everywhere, and two causally closed stores that decide
    round 0 differently.

    Round 0 holds vertices 10, 20, 30, 40 of producers 1 to 4, round 1 holds 11, 21, 31, 41
    and round 2 holds 12, 22, 42. Producer 1 is designated at round 0, producer 4 at round 1. */
module Divergence {
  import opened Common
  import opened Stake
  import opened Dag
  import opened Anchor
  import opened AnchorSafety

  const FOUR: ValidatorSet := [
    Validator(1, 1, 0, false, 0), Validator(2, 1, 0, false, 0),
    Validator(3, 1, 0, false, 0), Validator(4, 1, 0, false, 0)]

  const CFG: Config := Config(_ => Some(FOUR), r => Some(if r == 0 then 1 else 4), _ => false, 1000)

  /** `three` are the parents of 11, 21 and 31, `last` those of 41. */
  function Whole(three: seq<Hash>, last: seq<Hash>): Graph
  {
    map[10 := Vertex(0, 1, []), 20 := Vertex(0, 2, []), 30 := Vertex(0, 3, []), 40 := Vertex(0, 4, []),
        11 := Vertex(1, 1, three), 21 := Vertex(1, 2, three), 31 := Vertex(1, 3, three), 41 := Vertex(1, 4, last),
        12 := Vertex(2, 1, [11, 21, 41]), 22 := Vertex(2, 2, [11, 21, 41]), 42 := Vertex(2, 4, [11, 21, 41])]
  }

  /** One node has all of rounds 0 and 1. */
  function Wide(three: seq<Hash>, last: seq<Hash>): View
  {
    View(map[10 := Vertex(0, 1, []), 20 := Vertex(0, 2, []), 30 := Vertex(0, 3, []), 40 := Vertex(0, 4, []),
             11 := Vertex(1, 1, three), 21 := Vertex(1, 2, three), 31 := Vertex(1, 3, three), 41 := Vertex(1, 4, last)],
         {}, None)
  }

  /** The other lacks vertex 31 but already has round 2. */
  function Deep(three: seq<Hash>, last: seq<Hash>): View
  {
    View(map[10 := Vertex(0, 1, []), 20 := Vertex(0, 2, []), 30 := Vertex(0, 3, []), 40 := Vertex(0, 4, []),
             11 := Vertex(1, 1, three), 21 := Vertex(1, 2, three), 41 := Vertex(1, 4, last),
             12 := Vertex(2, 1, [11, 21, 41]), 22 := Vertex(2, 2, [11, 21, 41]), 42 := Vertex(2, 4, [11, 21, 41])],
         {}, None)
  }

  const CITES: seq<Hash> := [10, 20, 30]
  const OMITS: seq<Hash> := [20, 30, 40]

  /** The protocol hypotheses every agreement lemma asks for. */
  ghost predicate Protocol(dag: Graph, a: View, b: View)
  {
    && NodeView(dag, a, 0) && NodeView(dag, b, 0) && a.committed == b.committed && a.floor == b.floor
    && Layered(dag) && HasParents(dag) && QuorumParents(CFG, dag, 1) && QuorumParents(CFG, dag, 2)
    && (forall top :: StrictAndHonest(CFG, dag, 0, top)) && (forall p :: SingleVertex(dag, 0, p))
    && (forall top :: NoSilence(CFG, a.vertices, 0, top) && NoSilence(CFG, b.vertices, 0, top))
  }

  // ---- Arithmetic of four equal ballots -------------------------------------

  lemma FourBallots()
    ensures Ballots(FOUR, 1000) == [(1, 1), (2, 1), (3, 1), (4, 1)]
  {
    var t := RawTotal(FOUR);
    assert FOUR[..3][..2] == FOUR[..2] && FOUR[..3][..2][..1] == FOUR[..1];
    assert RawTotal(FOUR[..1]) == 1 by { assert FOUR[..1][..0] == []; }
    assert RawTotal(FOUR[..2]) == 2 by { assert FOUR[..2][..1] == FOUR[..1]; }
    assert RawTotal(FOUR[..3]) == 3;
    assert t == 4;
  }

  function One(b: bool): nat { if b then 1 else 0 }

  lemma CountOf(keys: set<Hash>)
    ensures Total([(1, 1), (2, 1), (3, 1), (4, 1)]) == 4
    ensures Weight([(1, 1), (2, 1), (3, 1), (4, 1)], keys) ==
              One(1 in keys) + One(2 in keys) + One(3 in keys) + One(4 in keys)
  {
    var b1: seq<Ballot> := [(1, 1)];
    var b2: seq<Ballot> := [(1, 1), (2, 1)];
    var b3: seq<Ballot> := [(1, 1), (2, 1), (3, 1)];
    var b4: seq<Ballot> := [(1, 1), (2, 1), (3, 1), (4, 1)];
    assert b1[..0] == [] && b2[..1] == b1 && b3[..2] == b2 && b4[..3] == b3;
    assert Total(b1) == 1 && Weight(b1, keys) == One(1 in keys);
    assert Total(b2) == 2 && Weight(b2, keys) == One(1 in keys) + One(2 in keys);
    assert Total(b3) == 3 && Weight(b3, keys) == One(1 in keys) + One(2 in keys) + One(3 in keys);
  }

  lemma Majority(keys: set<Hash>)
    ensures StrictQuorum(Ballots(FOUR, 1000), keys) <==>
              3 * (One(1 in keys) + One(2 in keys) + One(3 in keys) + One(4 in keys)) >= 8
  {
    FourBallots();
    CountOf(keys);
    hide Ballots, Weight, Total;
  }

  // ---- Verdicts -------------------------------------------------------------

  /** With a single candidate, the verdict is read off who cites it and who does not. */
  lemma SoleCandidateVerdict(g: Graph, n: nat, c: Hash, supporters: set<Hash>, citers: set<Hash>)
    requires Candidates(g, n, CFG.designated(n).value) == {c}
    requires Supporters(g, n, c) == supporters && Citers(g, n) == citers
    ensures DirectVerdict(CFG, g, n) ==
              if StrictQuorum(Ballots(FOUR, 1000), supporters) then Certified(c)
              else if StrictQuorum(Ballots(FOUR, 1000), citers - supporters) then Blamed
              else Undecided
  {
    hide Supporters, Citers, Candidates, StrictQuorum, Ballots;
    assert Blamers(g, n, {c}) == citers - supporters;
    assert CertifiedVertices(CFG, FOUR, g, n, CFG.designated(n).value) ==
             if StrictQuorum(Ballots(FOUR, 1000), supporters) then {c} else {};
  }

  lemma WideCitations(three: seq<Hash>, last: seq<Hash>)
    requires (three, last) in {(CITES, OMITS), (OMITS, CITES)}
    ensures Candidates(Wide(three, last).vertices, 0, 1) == {10}
    ensures Citers(Wide(three, last).vertices, 0) == {1, 2, 3, 4}
    ensures Supporters(Wide(three, last).vertices, 0, 10) == if three == CITES then {1, 2, 3} else {4}
  {
    var g := Wide(three, last).vertices;
    assert 11 in g && 21 in g && 31 in g && 41 in g;
  }

  lemma WideVerdict(three: seq<Hash>, last: seq<Hash>)
    requires (three, last) in {(CITES, OMITS), (OMITS, CITES)}
    ensures DirectVerdict(CFG, Wide(three, last).vertices, 0) == if three == CITES then Certified(10) else Blamed
  {
    WideCitations(three, last);
    hide Wide, DirectVerdict, Supporters, Citers, Candidates, Ballots, StrictQuorum;
    var g := Wide(three, last).vertices;
    SoleCandidateVerdict(g, 0, 10, if three == CITES then {1, 2, 3} else {4}, {1, 2, 3, 4});
    Majority(if three == CITES then {1, 2, 3} else {4});
    Majority({1, 2, 3, 4} - {4});
  }

  lemma DeepCitations(three: seq<Hash>, last: seq<Hash>)
    requires (three, last) in {(CITES, OMITS), (OMITS, CITES)}
    ensures Candidates(Deep(three, last).vertices, 0, 1) == {10}
    ensures Citers(Deep(three, last).vertices, 0) == {1, 2, 4}
    ensures Supporters(Deep(three, last).vertices, 0, 10) == if three == CITES then {1, 2} else {4}
  {
    var g := Deep(three, last).vertices;
    assert 11 in g && 21 in g && 41 in g;
  }

  lemma DeepCitationsAbove(three: seq<Hash>, last: seq<Hash>)
    ensures Candidates(Deep(three, last).vertices, 1, 4) == {41}
    ensures Citers(Deep(three, last).vertices, 1) == {1, 2, 4}
    ensures Supporters(Deep(three, last).vertices, 1, 41) == {1, 2, 4}
  {
    var g := Deep(three, last).vertices;
    assert 12 in g && 22 in g && 42 in g;
  }

  lemma DeepVerdicts(three: seq<Hash>, last: seq<Hash>)
    requires (three, last) in {(CITES, OMITS), (OMITS, CITES)}
    ensures DirectVerdict(CFG, Deep(three, last).vertices, 0) == Undecided
    ensures DirectVerdict(CFG, Deep(three, last).vertices, 1) == Certified(41)
  {
    hide Deep, DirectVerdict, Supporters, Citers, Candidates, Ballots, StrictQuorum;
    DeepCitations(three, last);
    DeepCitationsAbove(three, last);
    var g := Deep(three, last).vertices;
    var supporters := if three == CITES then {1, 2} else {4};
    SoleCandidateVerdict(g, 0, 10, supporters, {1, 2, 4});
    SoleCandidateVerdict(g, 1, 41, {1, 2, 4}, {1, 2, 4});
    Majority(supporters);
    Majority({1, 2, 4} - supporters);
    Majority({1, 2, 4});
  }

  // ---- Decisions ------------------------------------------------------------

  /** The wide node stops at its direct verdict. */
  lemma WideDecision(three: seq<Hash>, last: seq<Hash>)
    requires (three, last) in {(CITES, OMITS), (OMITS, CITES)}
    ensures AnchorStatus(CFG, Wide(three, last), 0) == if three == CITES then Commit(10) else Skip
  {
    WideVerdict(three, last);
    hide DirectVerdict, ResolveIndirect, MayScanPast, Wide;
  }

  /** The deep node resolves round 0 by vertex 41, committing 10 exactly when 41 cites it. */
  lemma DeepDecision(three: seq<Hash>, last: seq<Hash>)
    requires (three, last) in {(CITES, OMITS), (OMITS, CITES)}
    ensures AnchorStatus(CFG, Deep(three, last), 0) == if three == CITES then Skip else Commit(10)
  {
    hide DirectVerdict, MayScanPast, Deep, Candidates, History, Complete;
    DeepVerdicts(three, last);
    DeepCitations(three, last);
    DeepCarries(three, last);
    DeepReachesRoundTwo(three, last);
    var v := Deep(three, last);
    assert Scan(CFG, v, 0, 1) == ResolveIndirect(CFG, v, 0, 41);
  }

  lemma DeepReachesRoundTwo(three: seq<Hash>, last: seq<Hash>)
    ensures HighestRound(Deep(three, last).vertices) >= 2
  {
    assert 12 in Deep(three, last).vertices;
  }

  lemma DeepCarries(three: seq<Hash>, last: seq<Hash>)
    requires (three, last) in {(CITES, OMITS), (OMITS, CITES)}
    ensures Complete(Deep(three, last), 41)
    ensures {10} * History(Deep(three, last), 41) == if last == CITES then {10} else {}
  {
    hide Deep, Whole, Complete, Reach, CausallyClosed, Layered;
    var v := Deep(three, last);
    var dag := Whole(three, last);
    WholeIsLayered(three, last);
    DeepIsNode(three, last);
    DeepLinks(three, last);
    ClosedIsComplete(v, 41);
    if last == CITES {
      ReachSelf(v, 41);
      ReachStep(v, 41, 41, 10);
    } else if 10 in History(v, 41) {
      OneRoundUp(dag, v, 0, 10, 41);
      assert false;
    }
  }

  /** What the deep view holds around the resolving vertex. */
  lemma DeepLinks(three: seq<Hash>, last: seq<Hash>)
    requires (three, last) in {(CITES, OMITS), (OMITS, CITES)}
    ensures var v := Deep(three, last);
            && 41 in v.vertices && Live(v, 10) && v.vertices[10].round == 0 && v.vertices[41].round == 1
            && (10 in v.vertices[41].parents <==> last == CITES)
            && (last == CITES ==> Edge(v, 41, 10))
  {
  }

  // ---- Hypotheses -----------------------------------------------------------

  lemma WholeIsLayered(three: seq<Hash>, last: seq<Hash>)
    requires (three, last) in {(CITES, OMITS), (OMITS, CITES)}
    ensures Layered(Whole(three, last))
  {
    var g := Whole(three, last);
    forall h, p | h in g && p in g[h].parents && p in g ensures g[h].round == g[p].round + 1 {
      if g[h].round == 1 { assert p in {10, 20, 30, 40}; }
      if g[h].round == 2 { assert p in {11, 21, 41}; }
    }
  }

  lemma WholeHasParents(three: seq<Hash>, last: seq<Hash>)
    requires (three, last) in {(CITES, OMITS), (OMITS, CITES)}
    ensures HasParents(Whole(three, last))
  {
    var g := Whole(three, last);
    forall h | h in g && g[h].round > 0 ensures Linked(g, h) {
      var p := g[h].parents[1];
      assert p in g[h].parents && p in g;
    }
  }

  lemma DeepIsNode(three: seq<Hash>, last: seq<Hash>)
    requires (three, last) in {(CITES, OMITS), (OMITS, CITES)}
    ensures NodeView(Whole(three, last), Deep(three, last), 0)
  {
  }

  lemma WideIsNode(three: seq<Hash>, last: seq<Hash>)
    requires (three, last) in {(CITES, OMITS), (OMITS, CITES)}
    ensures NodeView(Whole(three, last), Wide(three, last), 0)
  {
  }

  lemma NoEquivocation(three: seq<Hash>, last: seq<Hash>)
    ensures forall r :: Equivocators(Whole(three, last), r) == {}
    ensures forall p :: SingleVertex(Whole(three, last), 0, p)
  {
    var g := Whole(three, last);
    forall h, k | h in g && k in g && g[h].round == g[k].round && g[h].producer == g[k].producer ensures h == k {
    }
  }

  lemma QuorumLinks(three: seq<Hash>, last: seq<Hash>)
    requires (three, last) in {(CITES, OMITS), (OMITS, CITES)}
    ensures QuorumParents(CFG, Whole(three, last), 1) && QuorumParents(CFG, Whole(three, last), 2)
  {
    var g := Whole(three, last);
    forall h | h in g && g[h].round > 0
      ensures StrictQuorum(Ballots(FOUR, 1000), ParentProducers(g, h))
    {
      ParentsOfWhole(three, last, h);
      Majority(ParentProducers(g, h));
    }
  }

  lemma ParentsOfWhole(three: seq<Hash>, last: seq<Hash>, h: Hash)
    requires (three, last) in {(CITES, OMITS), (OMITS, CITES)}
    requires h in Whole(three, last) && Whole(three, last)[h].round > 0
    ensures ParentProducers(Whole(three, last), h) in {{1, 2, 3}, {2, 3, 4}, {1, 2, 4}}
  {
    var g := Whole(three, last);
    if g[h].parents == CITES {
      ThreeParents(g, h, 10, 20, 30);
    } else if g[h].parents == OMITS {
      ThreeParents(g, h, 20, 30, 40);
    } else {
      ThreeParents(g, h, 11, 21, 41);
    }
  }

  lemma ThreeParents(g: Graph, h: Hash, x: Hash, y: Hash, z: Hash)
    requires h in g && g[h].parents == [x, y, z] && x in g && y in g && z in g
    ensures ParentProducers(g, h) == {g[x].producer, g[y].producer, g[z].producer}
  {
    assert x in g[h].parents && y in g[h].parents && z in g[h].parents;
  }

  lemma ShallowStoresSeeNoSilence(g: Graph)
    requires forall h :: h in g ==> g[h].round <= 2
    ensures forall top :: NoSilence(CFG, g, 0, top)
  {
    assert HighestRound(g) <= 2;
  }

  lemma HypothesesHold(three: seq<Hash>, last: seq<Hash>)
    requires (three, last) in {(CITES, OMITS), (OMITS, CITES)}
    ensures Protocol(Whole(three, last), Wide(three, last), Deep(three, last))
  {
    hide NodeView, Layered, HasParents, QuorumParents, NoSilence, SingleVertex, StrictAndHonest, Whole;
    WholeIsLayered(three, last);
    WholeHasParents(three, last);
    NoEquivocation(three, last);
    QuorumLinks(three, last);
    WideIsNode(three, last);
    DeepIsNode(three, last);
    WholeIsStrict(three, last);
    assert forall h :: h in Wide(three, last).vertices ==> Wide(three, last).vertices[h].round <= 2;
    ShallowStoresSeeNoSilence(Wide(three, last).vertices);
    ShallowStoresSeeNoSilence(Deep(three, last).vertices);
  }

  lemma WholeIsStrict(three: seq<Hash>, last: seq<Hash>)
    ensures forall top :: StrictAndHonest(CFG, Whole(three, last), 0, top)
  {
    NoEquivocation(three, last);
    FourBallots();
    CountOf({});
    hide SingleVertex, Equivocators, Whole, Ballots, Total;
  }

  /** A certified round is skipped by a node whose adjacent anchor omits the vertex. */
  lemma CertifiedYetSkipped()
    ensures Protocol(Whole(CITES, OMITS), Wide(CITES, OMITS), Deep(CITES, OMITS))
    ensures AnchorStatus(CFG, Wide(CITES, OMITS), 0) == Commit(10)
    ensures AnchorStatus(CFG, Deep(CITES, OMITS), 0) == Skip
  {
    HypothesesHold(CITES, OMITS);
    WideDecision(CITES, OMITS);
    DeepDecision(CITES, OMITS);
  }

  /** A blamed round is committed by a node whose anchor carries the vertex. */
  lemma BlamedYetCommitted()
    ensures Protocol(Whole(OMITS, CITES), Wide(OMITS, CITES), Deep(OMITS, CITES))
    ensures AnchorStatus(CFG, Wide(OMITS, CITES), 0) == Skip
    ensures AnchorStatus(CFG, Deep(OMITS, CITES), 0) == Commit(10)
  {
    HypothesesHold(OMITS, CITES);
    WideDecision(OMITS, CITES);
    DeepDecision(OMITS, CITES);
  }
}
