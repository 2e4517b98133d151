/** The anchor decision rule of one node (internal/consensus/anchor_decision.go):
    what a round's citations say directly, when a later round may be scanned past,
    and how a later certified anchor resolves an undecided round. */
module Anchor {
  import opened Common
  import opened Stake
  import opened Dag

  /** Stored rounds above a frontier a holder must be absent from to count as silent. */
  const SILENCE_SPAN: nat := 20

  /** The committed context a decision reads. `holders(r)` is the snapshot frozen for
      round r's commit epoch, `designated(r)` the round's anchor producer, `relaxed(r)`
      whether the bootstrap certificate still decides round r. */
  datatype Config = Config(
    holders: nat -> Option<ValidatorSet>,
    designated: nat -> Option<Hash>,
    relaxed: nat -> bool,
    capMille: u64)

  datatype Verdict = NoStake | Undecided | Certified(vertex: Hash) | Blamed

  datatype Decision = Wait | Commit(anchor: Hash) | Skip

  // ---- Citations ------------------------------------------------------------

  /** The designated producer's stored vertices of a round. */
  function Candidates(g: Graph, round: nat, producer: Hash): set<Hash>
  {
    set h | h in g && g[h].round == round && g[h].producer == producer
  }

  /** Producers with a vertex in the next round. */
  function Citers(g: Graph, round: nat): set<Hash>
  {
    set h | h in g && g[h].round == round + 1 :: g[h].producer
  }

  /** Producers of the next round with a vertex citing `vertex` directly. */
  function Supporters(g: Graph, round: nat, vertex: Hash): set<Hash>
  {
    set h | h in g && g[h].round == round + 1 && vertex in g[h].parents :: g[h].producer
  }

  /** Next-round producers none of whose vertices cites any candidate. */
  function Blamers(g: Graph, round: nat, candidates: set<Hash>): set<Hash>
  {
    set p | p in Citers(g, round) && forall c :: c in candidates ==> p !in Supporters(g, round, c)
  }

  function MembersIn(s: ValidatorSet, keys: set<Hash>): nat
  {
    if s == [] then 0
    else MembersIn(s[..|s| - 1], keys) + if s[|s| - 1].pubkey in keys then 1 else 0
  }

  predicate Certifies(s: ValidatorSet, capMille: u64, relaxed: bool, supporters: set<Hash>)
  {
    if relaxed then MembersIn(s, supporters) >= 1
    else StrictQuorum(Ballots(s, capMille), supporters)
  }

  ghost function MinOf(s: set<Hash>): (m: Hash)
    requires s != {}
    ensures m in s && forall x :: x in s ==> m <= x
  {
    var x :| x in s;
    if s == {x} then x
    else
      var rest := MinOf(s - {x});
      assert s == (s - {x}) + {x};
      if x < rest then x else rest
  }

  function CertifiedVertices(cfg: Config, s: ValidatorSet, g: Graph, round: nat, producer: Hash): set<Hash>
  {
    set v | v in Candidates(g, round, producer)
         && Certifies(s, cfg.capMille, cfg.relaxed(round), Supporters(g, round, v))
  }

  ghost function DirectVerdict(cfg: Config, g: Graph, round: nat): Verdict
  {
    match (cfg.designated(round), cfg.holders(round + 1))
    case (Some(producer), Some(s)) =>
      var certified := CertifiedVertices(cfg, s, g, round, producer);
      if certified != {} then Certified(MinOf(certified))
      else if !cfg.relaxed(round)
           && StrictQuorum(Ballots(s, cfg.capMille), Blamers(g, round, Candidates(g, round, producer)))
      then Blamed
      else Undecided
    case _ => NoStake
  }

  // ---- Impossible rounds ----------------------------------------------------

  /** The highest stored round, 0 for an empty store. */
  ghost function HighestRound(g: Graph): (m: nat)
    ensures forall h :: h in g ==> g[h].round <= m
    ensures m > 0 ==> exists h :: h in g && g[h].round == m
  {
    if g == map[] then 0
    else
      var h :| h in g;
      var g' := g - {h};
      var rest := HighestRound(g');
      assert forall k :: k in g ==> k == h || (k in g' && g'[k] == g[k]);
      assert rest > 0 ==> exists k :: k in g && g[k].round == rest by {
        if rest > 0 { var k :| k in g' && g'[k].round == rest; assert k in g && g[k].round == rest; }
      }
      if g[h].round > rest then g[h].round else rest
  }

  function ProducersInRange(g: Graph, lo: nat, hi: nat): set<Hash>
  {
    set h | h in g && lo <= g[h].round <= hi :: g[h].producer
  }

  ghost function Silent(g: Graph, s: ValidatorSet, frontier: nat): set<Hash>
  {
    if HighestRound(g) < frontier + SILENCE_SPAN then {}
    else (set v | v in s :: v.pubkey) - ProducersInRange(g, frontier, frontier + SILENCE_SPAN)
  }

  /** The round's producer left no vertex and is absent from the whole span above it. */
  ghost predicate DeadProducer(cfg: Config, g: Graph, round: nat)
  {
    match (cfg.designated(round), cfg.holders(round + 1))
    case (Some(producer), Some(s)) =>
      Candidates(g, round, producer) == {} && producer in Silent(g, s, round + 1)
    case _ => false
  }

  /** Whether the round can never certify, and whether stored blame alone says so. */
  ghost function CertImpossibility(cfg: Config, g: Graph, round: nat): (bool, bool)
  {
    if DeadProducer(cfg, g, round) then (true, false)
    else if cfg.relaxed(round) then (false, false)
    else
      match (cfg.designated(round), cfg.holders(round + 1))
      case (Some(producer), Some(s)) =>
        var blamers := Blamers(g, round, Candidates(g, round, producer));
        var b := Ballots(s, cfg.capMille);
        if RuledOut(b, blamers) then (true, true)
        else
          var silent := Silent(g, s, round + 1);
          (silent != {} && RuledOut(b, blamers + silent), false)
      case _ => (false, false)
  }

  /** Certifying the adjacent round would resolve the queried round like a later anchor. */
  ghost predicate AdjacentCertifyAgrees(cfg: Config, g: Graph, round: nat, r: nat)
  {
    || DeadProducer(cfg, g, round)
    || match (cfg.designated(round), cfg.designated(r))
       case (Some(p), Some(q)) =>
         var candidates := Candidates(g, round, p);
         && |candidates| == 1
         && Candidates(g, r, q) != {}
         && forall h :: h in Candidates(g, r, q) ==> CitesAny(g, h, candidates)
       case _ => false
  }

  predicate CitesAny(g: Graph, h: Hash, candidates: set<Hash>)
  {
    h in g && exists p :: p in g[h].parents && p in candidates
  }

  /** The scan for `round` may pass the later undecided round `r`. */
  ghost predicate MayScanPast(cfg: Config, g: Graph, round: nat, r: nat)
  {
    var (impossible, byBlame) := CertImpossibility(cfg, g, r);
    impossible && (byBlame || r != round + 1 || AdjacentCertifyAgrees(cfg, g, round, r))
  }

  // ---- Resolution -----------------------------------------------------------

  /** Some holder could still cite the candidate of an undecided relaxed round. */
  ghost predicate RelaxedSupporterPossible(cfg: Config, g: Graph, round: nat, producer: Hash)
  {
    match cfg.holders(round + 1)
    case None => false
    case Some(s) =>
      var blamers := Blamers(g, round, Candidates(g, round, producer));
      exists v :: v in s && v.pubkey !in blamers && v.pubkey !in Silent(g, s, round + 1)
  }

  /** Decide an undecided round by a later certified anchor's causal history. */
  ghost function ResolveIndirect(cfg: Config, v: View, round: nat, certified: Hash): Decision
  {
    match cfg.designated(round)
    case None => Wait
    case Some(producer) =>
      var candidates := Candidates(v.vertices, round, producer);
      if candidates == {} then
        if cfg.relaxed(round) && !DeadProducer(cfg, v.vertices, round) then Wait else Skip
      else if !Complete(v, certified) then Wait
      else
        var carried := candidates * History(v, certified);
        if carried != {} then Commit(MinOf(carried))
        else if cfg.relaxed(round) && RelaxedSupporterPossible(cfg, v.vertices, round, producer) then Wait
        else Skip
  }

  /** The forward scan for `round`, resumed at `r`. */
  ghost function Scan(cfg: Config, v: View, round: nat, r: nat): Decision
    decreases HighestRound(v.vertices) + 1 - r
  {
    if r > HighestRound(v.vertices) then Wait
    else
      match DirectVerdict(cfg, v.vertices, r)
      case Certified(x) => if r == round then Commit(x) else ResolveIndirect(cfg, v, round, x)
      case Blamed => if r == round then Skip else Scan(cfg, v, round, r + 1)
      case Undecided =>
        if r == round || MayScanPast(cfg, v.vertices, round, r) then Scan(cfg, v, round, r + 1) else Wait
      case NoStake => Wait
  }

  /** A node's decision for a round. */
  ghost function AnchorStatus(cfg: Config, v: View, round: nat): Decision
  {
    Scan(cfg, v, round, round)
  }

  /** What a decided scan rests on: the first certified later round, everything before
      it being blamed or safely impossible. */
  lemma {:induction false} ScanResolver(cfg: Config, v: View, round: nat, r: nat) returns (at: nat, anchor: Hash)
    requires r > round && Scan(cfg, v, round, r) != Wait
    ensures r <= at <= HighestRound(v.vertices)
    ensures DirectVerdict(cfg, v.vertices, at) == Certified(anchor)
    ensures Scan(cfg, v, round, r) == ResolveIndirect(cfg, v, round, anchor)
    ensures forall k :: r <= k < at ==>
              || DirectVerdict(cfg, v.vertices, k) == Blamed
              || (DirectVerdict(cfg, v.vertices, k) == Undecided && MayScanPast(cfg, v.vertices, round, k))
    decreases HighestRound(v.vertices) + 1 - r
  {
    hide DirectVerdict, MayScanPast, ResolveIndirect;
    match DirectVerdict(cfg, v.vertices, r)
    case Certified(x) => at, anchor := r, x;
    case Blamed => at, anchor := ScanResolver(cfg, v, round, r + 1);
    case Undecided => at, anchor := ScanResolver(cfg, v, round, r + 1);
    case NoStake =>
  }

  /** A certified vertex is a stored candidate whose supporters certify it, and the
      lowest-hash one. */
  lemma CertifiedMeans(cfg: Config, g: Graph, round: nat, vertex: Hash)
    requires DirectVerdict(cfg, g, round) == Certified(vertex)
    ensures cfg.designated(round).Some? && cfg.holders(round + 1).Some?
    ensures vertex in g && g[vertex].round == round && g[vertex].producer == cfg.designated(round).value
    ensures Certifies(cfg.holders(round + 1).value, cfg.capMille, cfg.relaxed(round), Supporters(g, round, vertex))
  {
    var s := cfg.holders(round + 1).value;
    var certified := CertifiedVertices(cfg, s, g, round, cfg.designated(round).value);
    assert vertex in certified;
  }
}
