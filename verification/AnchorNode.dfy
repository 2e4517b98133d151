/** The anchor rule as a node runs it: loops over its store, proved to compute the
    decision functions of module Anchor. */
module AnchorNode {
  import opened Common
  import opened Stake
  import opened Dag
  import opened Anchor
  import opened VertexStore

  /** Who supports which candidate, and who blames the producer. */
  datatype Tally = Tally(supporters: map<Hash, set<Hash>>, blamers: set<Hash>)

  ghost predicate TallyOf(g: Graph, round: nat, candidates: set<Hash>, t: Tally)
  {
    && t.blamers == Blamers(g, round, candidates)
    && (forall v :: v in t.supporters <==> v in candidates && Supporters(g, round, v) != {})
    && (forall v :: v in t.supporters ==> t.supporters[v] == Supporters(g, round, v))
  }

  ghost predicate Listed(g: Graph, hashes: seq<Hash>, n: nat, p: Hash)
    requires n <= |hashes| && forall i :: 0 <= i < |hashes| ==> hashes[i] in g
  {
    exists i :: 0 <= i < n && g[hashes[i]].producer == p
  }

  ghost predicate ListedCites(g: Graph, hashes: seq<Hash>, n: nat, p: Hash, c: Hash)
    requires n <= |hashes| && forall i :: 0 <= i < |hashes| ==> hashes[i] in g
  {
    exists i :: 0 <= i < n && g[hashes[i]].producer == p && c in g[hashes[i]].parents
  }

  /** Producers of the first `n` listed vertices, with the candidates those vertices cite. */
  ghost predicate CitesListed(g: Graph, hashes: seq<Hash>, n: nat, candidates: set<Hash>, cited: map<Hash, set<Hash>>)
    requires n <= |hashes| && forall i :: 0 <= i < |hashes| ==> hashes[i] in g
  {
    && (forall p :: p in cited <==> Listed(g, hashes, n, p))
    && (forall p, c :: p in cited ==> (c in cited[p] <==> c in candidates && ListedCites(g, hashes, n, p, c)))
  }

  lemma ListedStep(g: Graph, hashes: seq<Hash>, i: nat, p: Hash, c: Hash)
    requires i < |hashes| && forall j :: 0 <= j < |hashes| ==> hashes[j] in g
    ensures Listed(g, hashes, i + 1, p) <==> Listed(g, hashes, i, p) || g[hashes[i]].producer == p
    ensures ListedCites(g, hashes, i + 1, p, c) <==>
              ListedCites(g, hashes, i, p, c) || (g[hashes[i]].producer == p && c in g[hashes[i]].parents)
    ensures ListedCites(g, hashes, i, p, c) ==> Listed(g, hashes, i, p)
  {
  }

  lemma CitesListedNone(g: Graph, hashes: seq<Hash>, candidates: set<Hash>)
    requires forall i :: 0 <= i < |hashes| ==> hashes[i] in g
    ensures CitesListed(g, hashes, 0, candidates, map[])
  {
  }

  lemma CitesListedStep(g: Graph, hashes: seq<Hash>, i: nat, candidates: set<Hash>, cited: map<Hash, set<Hash>>)
    requires i < |hashes| && forall j :: 0 <= j < |hashes| ==> hashes[j] in g
    requires CitesListed(g, hashes, i, candidates, cited)
    ensures var vertex := g[hashes[i]];
            var votes := if vertex.producer in cited then cited[vertex.producer] else {};
            CitesListed(g, hashes, i + 1, candidates,
                        cited[vertex.producer := votes + (set c | c in vertex.parents && c in candidates)])
  {
    hide Listed, ListedCites;
    var vertex := g[hashes[i]];
    var votes := if vertex.producer in cited then cited[vertex.producer] else {};
    var cited' := cited[vertex.producer := votes + (set c | c in vertex.parents && c in candidates)];
    forall p ensures p in cited' <==> Listed(g, hashes, i + 1, p) {
      ListedStep(g, hashes, i, p, 0);
    }
    forall p, c | p in cited' ensures c in cited'[p] <==> c in candidates && ListedCites(g, hashes, i + 1, p, c) {
      ListedStep(g, hashes, i, p, c);
    }
  }

  lemma CitesListedAll(g: Graph, hashes: seq<Hash>, round: nat, candidates: set<Hash>, cited: map<Hash, set<Hash>>)
    requires forall i :: 0 <= i < |hashes| ==> hashes[i] in g
    requires forall h :: h in hashes <==> h in g && g[h].round == round + 1
    requires CitesListed(g, hashes, |hashes|, candidates, cited)
    ensures cited.Keys == Citers(g, round)
    ensures forall p, c :: p in cited ==> (c in cited[p] <==> c in candidates && p in Supporters(g, round, c))
  {
    forall p ensures p in cited <==> p in Citers(g, round) {
      if p in Citers(g, round) {
        var h :| h in g && g[h].round == round + 1 && g[h].producer == p;
        var i :| 0 <= i < |hashes| && hashes[i] == h;
      }
    }
    forall p, c | p in cited ensures c in cited[p] <==> c in candidates && p in Supporters(g, round, c) {
      if c in candidates && p in Supporters(g, round, c) {
        var h :| h in g && g[h].round == round + 1 && c in g[h].parents && g[h].producer == p;
        var i :| 0 <= i < |hashes| && hashes[i] == h;
      }
    }
  }

  /** The votes of the producers in `done` folded into supporters and blamers. */
  ghost predicate Folded(cited: map<Hash, set<Hash>>, done: set<Hash>,
                         supporters: map<Hash, set<Hash>>, blamers: set<Hash>)
    requires done <= cited.Keys
  {
    && (forall p :: p in blamers <==> p in done && cited[p] == {})
    && (forall v :: v in supporters <==> exists p :: p in done && v in cited[p])
    && (forall v, p :: v in supporters ==> (p in supporters[v] <==> p in done && v in cited[p]))
  }

  lemma FoldedStep(cited: map<Hash, set<Hash>>, done: set<Hash>,
                   supporters: map<Hash, set<Hash>>, blamers: set<Hash>, p: Hash)
    requires done <= cited.Keys && Folded(cited, done, supporters, blamers) && p in cited && p !in done
    ensures Folded(cited, done + {p},
                   if cited[p] == {} then supporters else AddSupporter(supporters, cited[p], p),
                   if cited[p] == {} then blamers + {p} else blamers)
  {
    var done' := done + {p};
    var supporters' := if cited[p] == {} then supporters else AddSupporter(supporters, cited[p], p);
    forall v ensures v in supporters' <==> exists q :: q in done' && v in cited[q] {
      if q :| q in done' && v in cited[q] {
        assert q == p || q in done;
      }
      if v in supporters' && v !in cited[p] {
        var q :| q in done && v in cited[q];
        assert q in done';
      }
      if v in cited[p] { assert p in done'; }
    }
  }

  class Node {
    const cfg: Config
    const store: Store

    constructor (cfg: Config, store: Store)
      ensures this.cfg == cfg && this.store == store
    {
      this.cfg, this.store := cfg, store;
    }

    /** A producer's stored vertices of a round, hash-ascending. */
    method GetByRoundProducer(round: nat, producer: Hash) returns (matches: seq<Hash>, ok: bool)
      requires store.Valid()
      ensures Ascending(matches) && Elements(matches) == Candidates(store.vertices, round, producer)
      ensures ok <==> Candidates(store.vertices, round, producer) != {}
    {
      var hashes := AtRound(store.byRound, round);
      matches := [];
      for i := 0 to |hashes|
        invariant forall h :: h in matches <==>
          exists j :: 0 <= j < i && hashes[j] == h && store.vertices[h].producer == producer
      {
        if store.vertices[hashes[i]].producer == producer {
          matches := matches + [hashes[i]];
        }
      }
      assert forall h :: h in matches <==> h in Candidates(store.vertices, round, producer);
      NonEmptyElements(matches);
      matches := SortHashes(matches);
      ok := |matches| > 0;
    }

    /** Each next-round producer with the candidates its vertices cite, united over
        the vertices of an equivocator. */
    method CitationsByProducer(round: nat, candidates: set<Hash>) returns (cited: map<Hash, set<Hash>>)
      requires store.Valid()
      ensures cited.Keys == Citers(store.vertices, round)
      ensures forall p, c :: p in cited ==>
                (c in cited[p] <==> c in candidates && p in Supporters(store.vertices, round, c))
    {
      var g := store.vertices;
      var hashes := AtRound(store.byRound, round + 1);
      hide CitesListed, Supporters, Citers;
      cited := map[];
      CitesListedNone(g, hashes, candidates);
      for i := 0 to |hashes|
        invariant CitesListed(g, hashes, i, candidates, cited)
      {
        var vertex := g[hashes[i]];
        CitesListedStep(g, hashes, i, candidates, cited);
        var votes := if vertex.producer in cited then cited[vertex.producer] else {};
        cited := cited[vertex.producer := votes + (set c | c in vertex.parents && c in candidates)];
      }
      CitesListedAll(g, hashes, round, candidates, cited);
    }

    method TallyCitations(round: nat, producer: Hash) returns (tally: Tally)
      requires store.Valid()
      ensures TallyOf(store.vertices, round, Candidates(store.vertices, round, producer), tally)
      ensures tally.blamers == Blamers(store.vertices, round, Candidates(store.vertices, round, producer))
    {
      ghost var g := store.vertices;
      var stored, _ := GetByRoundProducer(round, producer);
      var candidates := Elements(stored);
      var cited := CitationsByProducer(round, candidates);

      var supporters: map<Hash, set<Hash>> := map[];
      var blamers: set<Hash> := {};
      var todo := cited.Keys;
      while todo != {}
        invariant todo <= cited.Keys
        invariant Folded(cited, cited.Keys - todo, supporters, blamers)
        decreases todo
      {
        var p :| p in todo;
        FoldedStep(cited, cited.Keys - todo, supporters, blamers, p);
        hide Folded;
        assert cited.Keys - (todo - {p}) == (cited.Keys - todo) + {p};
        if cited[p] == {} {
          blamers := blamers + {p};
        } else {
          supporters := AddSupporter(supporters, cited[p], p);
        }
        todo := todo - {p};
      }
      tally := Tally(supporters, blamers);
      assert cited.Keys - todo == cited.Keys;
      TallyComplete(g, round, candidates, cited, tally);
    }

    /** Certified is tested first, hash-ascending; a relaxed round is never blamed. */
    method VerdictFromTally(round: nat, producer: Hash, s: ValidatorSet, tally: Tally) returns (verdict: Verdict)
      requires store.Valid()
      requires cfg.designated(round) == Some(producer) && cfg.holders(round + 1) == Some(s)
      requires TallyOf(store.vertices, round, Candidates(store.vertices, round, producer), tally)
      ensures verdict == DirectVerdict(cfg, store.vertices, round)
    {
      ghost var g := store.vertices;
      ghost var certified := CertifiedVertices(cfg, s, g, round, producer);
      CertifiedAreTallied(cfg, s, g, round, producer, tally);
      VerdictReads(cfg, g, round, producer, s);
      hide *;
      var lowest := FirstCertifying(s, tally.supporters, cfg.relaxed(round), certified);
      if lowest.Some? {
        return Certified(lowest.value);
      }
      if !cfg.relaxed(round) {
        var blamed := Reaches(s, tally.blamers, false);
        StrictCertifies(cfg, s, tally.blamers);
        if blamed {
          return Blamed;
        }
      }
      return Undecided;
    }

    /** The lowest-hash vertex whose supporters certify it, if any does. */
    method FirstCertifying(s: ValidatorSet, supporters: map<Hash, set<Hash>>, relaxed: bool, ghost certified: set<Hash>)
      returns (lowest: Option<Hash>)
      requires forall v :: v in certified ==> v in supporters
      requires forall v :: v in supporters ==> (v in certified <==> Certifies(s, cfg.capMille, relaxed, supporters[v]))
      ensures lowest.None? <==> certified == {}
      ensures lowest.Some? ==> lowest.value == MinOf(certified)
    {
      hide Certifies, MinOf;
      var keys := SortedKeys(supporters.Keys);
      for i := 0 to |keys|
        invariant forall j :: 0 <= j < i ==> keys[j] !in certified
      {
        assert keys[i] in Elements(keys);
        var reached := Reaches(s, supporters[keys[i]], relaxed);
        if reached {
          LowestIsMin(certified, keys, i);
          return Some(keys[i]);
        }
      }
      assert forall v :: v in certified ==> v in Elements(keys);
      return None;
    }

    method Reaches(s: ValidatorSet, producers: set<Hash>, relaxed: bool) returns (r: bool)
      ensures r == Certifies(s, cfg.capMille, relaxed, producers)
    {
      if relaxed {
        var count := 0;
        for i := 0 to |s|
          invariant count == MembersIn(s[..i], producers)
        {
          assert s[..i + 1][..i] == s[..i];
          if s[i].pubkey in producers {
            count := count + 1;
          }
        }
        assert s[..|s|] == s;
        return count >= 1;
      }
      var sum, total := CappedStakeOf(s, cfg.capMille, producers);
      return QuorumReached(sum, total);
    }

    method DirectAnchorVerdict(round: nat) returns (verdict: Verdict)
      requires store.Valid()
      ensures verdict == DirectVerdict(cfg, store.vertices, round)
    {
      if cfg.designated(round).None? || cfg.holders(round + 1).None? {
        return NoStake;
      }
      var tally := TallyCitations(round, cfg.designated(round).value);
      verdict := VerdictFromTally(round, cfg.designated(round).value, cfg.holders(round + 1).value, tally);
    }

    /** Holders with no vertex in the whole span above a frontier. */
    method SilentHolders(s: ValidatorSet, frontier: nat) returns (silent: set<Hash>)
      requires store.Valid()
      ensures silent == Silent(store.vertices, s, frontier)
    {
      LatestIsHighest(store.vertices, store.byRound, store.latestRound);
      var horizon := frontier + SILENCE_SPAN;
      if store.latestRound < horizon {
        return {};
      }
      var seen := SeenInRange(frontier, horizon);
      silent := {};
      for i := 0 to |s|
        invariant silent == (set v | v in s[..i] :: v.pubkey) - seen
      {
        assert forall v :: v in s[..i + 1] <==> v in s[..i] || v == s[i];
        if s[i].pubkey !in seen {
          silent := silent + {s[i].pubkey};
        }
      }
      assert s[..|s|] == s;
    }

    method SeenInRange(lo: nat, hi: nat) returns (seen: set<Hash>)
      requires store.Valid() && lo <= hi
      ensures seen == ProducersInRange(store.vertices, lo, hi)
    {
      var g := store.vertices;
      seen := {};
      for r := lo to hi + 1
        invariant seen == Between(g, lo, r)
      {
        var producers := ProducersOf(r);
        assert Between(g, lo, r + 1) == Between(g, lo, r) + producers by {
          forall p | p in Between(g, lo, r + 1) ensures p in Between(g, lo, r) + producers {
            var h :| h in g && lo <= g[h].round < r + 1 && g[h].producer == p;
            if g[h].round == r { assert p in producers; }
          }
        }
        seen := seen + producers;
      }
    }

    method ProducersOf(r: nat) returns (producers: set<Hash>)
      requires store.Valid()
      ensures producers == set h | h in store.vertices && store.vertices[h].round == r :: store.vertices[h].producer
    {
      var g := store.vertices;
      var hashes := AtRound(store.byRound, r);
      producers := {};
      for i := 0 to |hashes|
        invariant producers == set j | 0 <= j < i :: g[hashes[j]].producer
      {
        producers := producers + {g[hashes[i]].producer};
      }
      forall h | h in g && g[h].round == r ensures g[h].producer in producers {
        assert h in hashes;
      }
    }

    method DeadDesignatedProducer(round: nat) returns (dead: bool)
      requires store.Valid()
      ensures dead == DeadProducer(cfg, store.vertices, round)
    {
      if cfg.designated(round).None? || cfg.holders(round + 1).None? {
        return false;
      }
      var producer := cfg.designated(round).value;
      var _, stored := GetByRoundProducer(round, producer);
      if stored {
        return false;
      }
      var silent := SilentHolders(cfg.holders(round + 1).value, round + 1);
      return producer in silent;
    }

    /** Whether even everybody else falls short, from the two capped sums. */
    method CertificationRuledOut(s: ValidatorSet, nonSupporters: set<Hash>) returns (r: bool)
      ensures r == RuledOut(Ballots(s, cfg.capMille), nonSupporters)
    {
      var sum, total := CappedStakeOf(s, cfg.capMille, nonSupporters);
      WeightBelowTotal(Ballots(s, cfg.capMille), nonSupporters);
      if total == 0 {
        return false;
      }
      return !QuorumReached(total - sum, total);
    }

    method CertImpossible(round: nat) returns (impossible: bool, byBlame: bool)
      requires store.Valid()
      ensures (impossible, byBlame) == CertImpossibility(cfg, store.vertices, round)
    {
      hide DeadProducer, Silent, RuledOut, Blamers, Candidates;
      var dead := DeadDesignatedProducer(round);
      if dead {
        return true, false;
      }
      if cfg.relaxed(round) || cfg.designated(round).None? || cfg.holders(round + 1).None? {
        return false, false;
      }
      var s := cfg.holders(round + 1).value;
      var tally := TallyCitations(round, cfg.designated(round).value);
      var blamed := CertificationRuledOut(s, tally.blamers);
      if blamed {
        return true, true;
      }
      var silent := SilentHolders(s, round + 1);
      if silent == {} {
        return false, false;
      }
      var ruledOut := CertificationRuledOut(s, tally.blamers + silent);
      return ruledOut, false;
    }

    method AdjacentAgrees(round: nat, r: nat) returns (agrees: bool)
      requires store.Valid()
      ensures agrees == AdjacentCertifyAgrees(cfg, store.vertices, round, r)
    {
      hide DeadProducer;
      var dead := DeadDesignatedProducer(round);
      if dead {
        return true;
      }
      if cfg.designated(round).None? || cfg.designated(r).None? {
        return false;
      }
      var stored, _ := GetByRoundProducer(round, cfg.designated(round).value);
      var candidates := Elements(stored);
      if |candidates| != 1 {
        return false;
      }
      var rVertices, held := GetByRoundProducer(r, cfg.designated(r).value);
      if !held {
        return false;
      }
      hide Candidates;
      agrees := AllCite(rVertices, candidates);
    }

    method AllCite(hashes: seq<Hash>, candidates: set<Hash>) returns (all: bool)
      ensures all == forall h :: h in Elements(hashes) ==> CitesAny(store.vertices, h, candidates)
    {
      for i := 0 to |hashes|
        invariant forall j :: 0 <= j < i ==> CitesAny(store.vertices, hashes[j], candidates)
      {
        var cites := VertexCites(hashes[i], candidates);
        if !cites {
          assert hashes[i] in Elements(hashes);
          return false;
        }
      }
      return true;
    }

    method VertexCites(hash: Hash, candidates: set<Hash>) returns (cites: bool)
      ensures cites == CitesAny(store.vertices, hash, candidates)
    {
      if hash !in store.vertices {
        return false;
      }
      var parents := store.vertices[hash].parents;
      for i := 0 to |parents|
        invariant forall j :: 0 <= j < i ==> parents[j] !in candidates
      {
        if parents[i] in candidates {
          return true;
        }
      }
      return false;
    }

    method ScanPastUndecided(round: nat, r: nat) returns (pass: bool)
      requires store.Valid()
      ensures pass == MayScanPast(cfg, store.vertices, round, r)
    {
      hide CertImpossibility, AdjacentCertifyAgrees;
      var impossible, byBlame := CertImpossible(r);
      if !impossible {
        return false;
      }
      if !byBlame && r == round + 1 {
        var agrees := AdjacentAgrees(round, r);
        return agrees;
      }
      return true;
    }

    method SupporterStillPossible(round: nat, producer: Hash) returns (possible: bool)
      requires store.Valid()
      ensures possible == RelaxedSupporterPossible(cfg, store.vertices, round, producer)
    {
      hide Blamers, Silent, Candidates, TallyOf, Supporters;
      if cfg.holders(round + 1).None? {
        return false;
      }
      var s := cfg.holders(round + 1).value;
      var tally := TallyCitations(round, producer);
      var silent := SilentHolders(s, round + 1);
      possible := AnyOutside(s, tally.blamers, silent);
    }

    /** The first candidate, hash-ascending, that the anchor's history carries. */
    method DecideMembership(candidates: seq<Hash>, history: seq<Hash>) returns (first: Option<Hash>)
      requires Ascending(candidates)
      ensures first.None? <==> Elements(candidates) * Elements(history) == {}
      ensures first.Some? ==> first.value == MinOf(Elements(candidates) * Elements(history))
    {
      hide MinOf;
      ghost var carried := Elements(candidates) * Elements(history);
      var inHistory := Elements(history);
      for i := 0 to |candidates|
        invariant forall j :: 0 <= j < i ==> candidates[j] !in carried
      {
        if candidates[i] in inHistory {
          LowestIsMin(carried, candidates, i);
          return Some(candidates[i]);
        }
      }
      assert forall c :: c in carried ==> c in candidates;
      return None;
    }

    method ResolveByAnchor(round: nat, certified: Hash) returns (d: Decision)
      requires store.Valid()
      ensures d == ResolveIndirect(cfg, store.AsView(), round, certified)
    {
      hide DeadProducer, RelaxedSupporterPossible, Candidates, History, Complete, MinOf;
      if cfg.designated(round).None? {
        return Wait;
      }
      var producer := cfg.designated(round).value;
      var candidates, held := GetByRoundProducer(round, producer);
      if !held {
        if cfg.relaxed(round) {
          var dead := DeadDesignatedProducer(round);
          return if dead then Skip else Wait;
        }
        return Skip;
      }
      var history, ok := store.CausalBatch(certified);
      if !ok {
        return Wait;
      }
      var first := DecideMembership(candidates, history);
      if first.Some? {
        return Commit(first.value);
      }
      if cfg.relaxed(round) {
        var possible := SupporterStillPossible(round, producer);
        return if possible then Wait else Skip;
      }
      return Skip;
    }

    /** One round of the forward scan: a decision, or none to go on. */
    method ScanRound(round: nat, r: nat) returns (d: Option<Decision>)
      requires store.Valid() && r <= HighestRound(store.vertices)
      ensures Scan(cfg, store.AsView(), round, r) ==
                if d.Some? then d.value else Scan(cfg, store.AsView(), round, r + 1)
    {
      ScanStep(cfg, store.AsView(), round, r);
      hide Scan, DirectVerdict, ResolveIndirect, MayScanPast, HighestRound;
      var verdict := DirectAnchorVerdict(r);
      match verdict {
        case Certified(x) =>
          if r == round {
            return Some(Commit(x));
          }
          var resolved := ResolveByAnchor(round, x);
          return Some(resolved);
        case Blamed =>
          return if r == round then Some(Skip) else None;
        case Undecided =>
          if r == round {
            return None;
          }
          var pass := ScanPastUndecided(round, r);
          return if pass then None else Some(Wait);
        case NoStake =>
          return Some(Wait);
      }
    }

    /** The node's decision for a round. */
    method DecideRound(round: nat) returns (d: Decision)
      requires store.Valid()
      ensures d == AnchorStatus(cfg, store.AsView(), round)
    {
      hide Scan, HighestRound, Indexed;
      LatestIsHighest(store.vertices, store.byRound, store.latestRound);
      var r := round;
      while r <= store.latestRound
        invariant AnchorStatus(cfg, store.AsView(), round) == Scan(cfg, store.AsView(), round, r)
        decreases store.latestRound + 1 - r
      {
        var step := ScanRound(round, r);
        if step.Some? {
          return step.value;
        }
        r := r + 1;
      }
      ScanStep(cfg, store.AsView(), round, r);
      return Wait;
    }
  }

  method AnyOutside(s: ValidatorSet, blamers: set<Hash>, silent: set<Hash>) returns (r: bool)
    ensures r <==> exists v :: v in s && v.pubkey !in blamers && v.pubkey !in silent
  {
    for i := 0 to |s|
      invariant forall j :: 0 <= j < i ==> s[j].pubkey in blamers || s[j].pubkey in silent
    {
      if s[i].pubkey !in blamers && s[i].pubkey !in silent {
        assert s[i] in s;
        return true;
      }
    }
    return false;
  }

  /** One iteration of the scan. */
  lemma ScanStep(cfg: Config, v: View, round: nat, r: nat)
    ensures Scan(cfg, v, round, r) ==
              if r > HighestRound(v.vertices) then Wait
              else match DirectVerdict(cfg, v.vertices, r)
                case Certified(x) => if r == round then Commit(x) else ResolveIndirect(cfg, v, round, x)
                case Blamed => if r == round then Skip else Scan(cfg, v, round, r + 1)
                case Undecided =>
                  if r == round || MayScanPast(cfg, v.vertices, round, r) then Scan(cfg, v, round, r + 1) else Wait
                case NoStake => Wait
  {
  }

  function Between(g: Graph, lo: nat, hi: nat): set<Hash>
  {
    set h | h in g && lo <= g[h].round < hi :: g[h].producer
  }

  function AddSupporter(m: map<Hash, set<Hash>>, votes: set<Hash>, p: Hash): map<Hash, set<Hash>>
  {
    map v | v in m.Keys + votes ::
      (if v in m then m[v] else {}) + (if v in votes then {p} else {})
  }

  lemma TallyComplete(g: Graph, round: nat, candidates: set<Hash>, cited: map<Hash, set<Hash>>, t: Tally)
    requires cited.Keys == Citers(g, round)
    requires forall p, c :: p in cited ==> (c in cited[p] <==> c in candidates && p in Supporters(g, round, c))
    requires Folded(cited, cited.Keys, t.supporters, t.blamers)
    ensures TallyOf(g, round, candidates, t)
  {
    hide Supporters, Citers, Blamers;
    BlamersComplete(g, round, candidates, cited);
    forall c, p | p in Supporters(g, round, c) ensures p in Citers(g, round) { SupporterCites(g, round, c, p); }
    forall v ensures v in t.supporters <==> v in candidates && Supporters(g, round, v) != {} {
      if v in candidates && Supporters(g, round, v) != {} {
        var p :| p in Supporters(g, round, v);
        assert p in cited && v in cited[p];
      }
    }
    forall v | v in t.supporters ensures t.supporters[v] == Supporters(g, round, v) {
      assert v in candidates;
      forall p ensures p in t.supporters[v] <==> p in Supporters(g, round, v) {
        assert p in cited ==> (v in cited[p] <==> p in Supporters(g, round, v));
        if p in Supporters(g, round, v) { assert p in cited; }
      }
    }
  }

  lemma SupporterCites(g: Graph, round: nat, c: Hash, p: Hash)
    requires p in Supporters(g, round, c)
    ensures p in Citers(g, round)
  {
  }

  lemma BlamersComplete(g: Graph, round: nat, candidates: set<Hash>, cited: map<Hash, set<Hash>>)
    requires cited.Keys == Citers(g, round)
    requires forall p, c :: p in cited ==> (c in cited[p] <==> c in candidates && p in Supporters(g, round, c))
    ensures Blamers(g, round, candidates) == set p | p in cited && cited[p] == {}
  {
    hide Supporters, Citers;
    forall p | p in cited ensures p in Blamers(g, round, candidates) <==> cited[p] == {} {
      if cited[p] != {} {
        var c :| c in cited[p];
        assert p in Supporters(g, round, c);
      }
    }
  }

  /** Every certified candidate is in the tally, with its supporters. */
  lemma CertifiedAreTallied(cfg: Config, s: ValidatorSet, g: Graph, round: nat, producer: Hash, t: Tally)
    requires TallyOf(g, round, Candidates(g, round, producer), t)
    ensures forall v :: v in CertifiedVertices(cfg, s, g, round, producer) ==> v in t.supporters
    ensures forall v :: v in t.supporters ==>
              (v in CertifiedVertices(cfg, s, g, round, producer) <==>
                Certifies(s, cfg.capMille, cfg.relaxed(round), t.supporters[v]))
    ensures t.blamers == Blamers(g, round, Candidates(g, round, producer))
  {
    CertifiedHaveSupporters(cfg, s, g, round, producer);
  }

  lemma VerdictReads(cfg: Config, g: Graph, round: nat, producer: Hash, s: ValidatorSet)
    requires cfg.designated(round) == Some(producer) && cfg.holders(round + 1) == Some(s)
    ensures DirectVerdict(cfg, g, round) ==
              var certified := CertifiedVertices(cfg, s, g, round, producer);
              if certified != {} then Certified(MinOf(certified))
              else if !cfg.relaxed(round)
                      && StrictQuorum(Ballots(s, cfg.capMille), Blamers(g, round, Candidates(g, round, producer)))
              then Blamed
              else Undecided
  {
  }

  lemma StrictCertifies(cfg: Config, s: ValidatorSet, producers: set<Hash>)
    ensures Certifies(s, cfg.capMille, false, producers) == StrictQuorum(Ballots(s, cfg.capMille), producers)
  {
  }

  /** The first certified key of an ascending list is the lowest certified vertex. */
  lemma LowestIsMin(certified: set<Hash>, keys: seq<Hash>, i: nat)
    requires Ascending(keys) && i < |keys| && keys[i] in certified && certified <= Elements(keys)
    requires forall j :: 0 <= j < i ==> keys[j] !in certified
    ensures certified != {} && MinOf(certified) == keys[i]
  {
    var m := MinOf(certified);
    assert m in Elements(keys);
    var j :| 0 <= j < |keys| && keys[j] == m;
  }

  /** An empty set of supporters certifies nothing, in either regime. */
  lemma CertifiedHaveSupporters(cfg: Config, s: ValidatorSet, g: Graph, round: nat, producer: Hash)
    ensures forall v :: v in CertifiedVertices(cfg, s, g, round, producer) ==> Supporters(g, round, v) != {}
  {
    EmptyWeight(Ballots(s, cfg.capMille), {});
    NoMembers(s);
  }

  lemma {:induction false} NoMembers(s: ValidatorSet)
    ensures MembersIn(s, {}) == 0
  {
    if s != [] { NoMembers(s[..|s| - 1]); }
  }

  /** A set of keys as an ascending sequence. */
  method SortedKeys(keys: set<Hash>) returns (r: seq<Hash>)
    ensures Ascending(r) && Elements(r) == keys
  {
    r := [];
    var todo := keys;
    while todo != {}
      invariant Elements(r) == keys - todo && todo <= keys && Ascending(r)
      decreases todo
    {
      var k :| k in todo;
      var next := InsertHash(r, k);
      assert forall x :: x in Elements(next) <==> x in Elements(r) || x == k;
      r, todo := next, todo - {k};
    }
  }

  lemma LatestIsHighest(vertices: Graph, byRound: map<nat, seq<Hash>>, latest: nat)
    requires Indexed(vertices, byRound, latest)
    ensures latest == HighestRound(vertices)
  {
  }
}
