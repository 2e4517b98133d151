/** When a round is decided: what a store must hold for the anchor rule to stop waiting,
    said of the store and not of the scan (internal/consensus/anchor_decision.go). */
module Progress {
  import opened Common
  import opened Stake
  import opened Dag
  import opened Anchor
  import opened AnchorSafety

  // ---- Rounds that stand in nobody's way ---------------------------------------

  /** A holder reads as silent exactly when the store reaches twenty rounds past the frontier
      and holds no vertex of it in any of them. */
  lemma SilentIff(g: Graph, s: ValidatorSet, frontier: nat, p: Hash)
    ensures p in Silent(g, s, frontier) <==>
              && (exists v :: v in s && v.pubkey == p)
              && HighestRound(g) >= frontier + 20
              && (forall h :: h in g && frontier <= g[h].round <= frontier + 20 ==> g[h].producer != p)
  {
    if p in ProducersInRange(g, frontier, frontier + 20) {
      var h :| h in g && frontier <= g[h].round <= frontier + 20 && g[h].producer == p;
    }
  }

  /** Where several vertices of a round certify, the one with the lowest hash is taken. */
  lemma CertifiedIsLowest(cfg: Config, g: Graph, r: nat, x: Hash, c: Hash)
    requires DirectVerdict(cfg, g, r) == Certified(x)
    requires c in Candidates(g, r, cfg.designated(r).value)
    requires Certifies(cfg.holders(r + 1).value, cfg.capMille, cfg.relaxed(r), Supporters(g, r, c))
    ensures x <= c
  {
    assert c in CertifiedVertices(cfg, cfg.holders(r + 1).value, g, r, cfg.designated(r).value);
  }

  /** And of several candidates a later vertex carries, the lowest is committed. */
  lemma CarriedIsLowest(cfg: Config, v: View, n: nat, x: Hash, a: Hash, c: Hash)
    requires ResolveIndirect(cfg, v, n, x) == Commit(a)
    requires c in Candidates(v.vertices, n, cfg.designated(n).value) * History(v, x)
    ensures a in Candidates(v.vertices, n, cfg.designated(n).value) * History(v, x) && a <= c
  {
    hide History, Complete, DeadProducer, RelaxedSupporterPossible;
  }

  /** In the bootstrap regime one member's citation certifies. */
  lemma {:induction false} RelaxedCertifiesIff(s: ValidatorSet, capMille: u64, supporters: set<Hash>)
    ensures Certifies(s, capMille, true, supporters) <==> exists i :: 0 <= i < |s| && s[i].pubkey in supporters
  {
    if s != [] {
      var n := |s| - 1;
      RelaxedCertifiesIff(s[..n], capMille, supporters);
      forall i | 0 <= i < n ensures s[..n][i] == s[i] { }
      if i :| 0 <= i < |s| && s[i].pubkey in supporters { assert i < n ==> s[..n][i].pubkey in supporters; }
    }
  }

  /** After it only two thirds of the capped weight do. */
  lemma StrictCertifiesIff(s: ValidatorSet, capMille: u64, supporters: set<Hash>)
    requires Exact(Ballots(s, capMille))
    ensures var b := Ballots(s, capMille);
            Certifies(s, capMille, false, supporters) <==> Total(b) > 0 && 3 * Weight(b, supporters) >= 2 * Total(b)
  {
    StrictQuorumIff(Ballots(s, capMille), supporters);
  }

  /** The designated producer of a round left no vertex there and reads as silent. */
  ghost predicate Vanished(cfg: Config, g: Graph, r: nat)
  {
    && cfg.designated(r).Some? && cfg.holders(r + 1).Some?
    && (forall h :: h in g && g[h].round == r ==> g[h].producer != cfg.designated(r).value)
    && cfg.designated(r).value in Silent(g, cfg.holders(r + 1).value, r + 1)
  }

  /** Everybody who could still cite a candidate of a strict round falls short of a quorum
      once those who blame it, and the `quiet` ones, are left out. */
  ghost predicate OutOfReach(cfg: Config, g: Graph, r: nat, quiet: set<Hash>)
  {
    && !cfg.relaxed(r) && cfg.designated(r).Some? && cfg.holders(r + 1).Some?
    && RuledOut(Ballots(cfg.holders(r + 1).value, cfg.capMille),
                Blamers(g, r, Candidates(g, r, cfg.designated(r).value)) + quiet)
  }

  /** Whichever vertex certifies the round above `n` cites its one candidate, or `n` has none
      and never will. */
  ghost predicate SameEitherWay(cfg: Config, g: Graph, n: nat)
  {
    || Vanished(cfg, g, n)
    || (&& cfg.designated(n).Some? && cfg.designated(n + 1).Some?
        && (exists h :: h in g && g[h].round == n + 1 && g[h].producer == cfg.designated(n + 1).value)
        && exists c ::
          && Candidates(g, n, cfg.designated(n).value) == {c}
          && forall h :: h in g && g[h].round == n + 1 && g[h].producer == cfg.designated(n + 1).value ==>
            c in g[h].parents)
  }

  /** An undecided round `r` that stands in nobody's way: blame alone puts it out of reach, or
      silence does, and then the round next to `n` must come out the same either way. */
  ghost predicate Passable(cfg: Config, g: Graph, n: nat, r: nat)
  {
    || (!Vanished(cfg, g, r) && OutOfReach(cfg, g, r, {}))
    || (&& (r == n + 1 ==> SameEitherWay(cfg, g, n))
        && (Vanished(cfg, g, r) || (cfg.holders(r + 1).Some? && Silent(g, cfg.holders(r + 1).value, r + 1) != {}
                                    && OutOfReach(cfg, g, r, Silent(g, cfg.holders(r + 1).value, r + 1)))))
  }

  lemma VanishedIsDead(cfg: Config, g: Graph, r: nat)
    ensures Vanished(cfg, g, r) <==> DeadProducer(cfg, g, r)
  {
    hide Silent;
    if cfg.designated(r).Some? {
      var candidates := Candidates(g, r, cfg.designated(r).value);
      assert forall h :: h in candidates <==> h in g && g[h].round == r && g[h].producer == cfg.designated(r).value;
    }
  }

  lemma SameIsAgreed(cfg: Config, g: Graph, n: nat)
    ensures SameEitherWay(cfg, g, n) <==> AdjacentCertifyAgrees(cfg, g, n, n + 1)
  {
    hide Silent, DeadProducer, Vanished;
    VanishedIsDead(cfg, g, n);
    if cfg.designated(n).Some? && cfg.designated(n + 1).Some? {
      var candidates := Candidates(g, n, cfg.designated(n).value);
      var above := Candidates(g, n + 1, cfg.designated(n + 1).value);
      AllCite(g, candidates, above);
      Members(g, n + 1, cfg.designated(n + 1).value);
      hide Candidates;
    }
  }

  lemma Members(g: Graph, r: nat, p: Hash)
    ensures forall h :: h in Candidates(g, r, p) <==> h in g && g[h].round == r && g[h].producer == p
    ensures Candidates(g, r, p) != {} <==> exists h :: h in g && g[h].round == r && g[h].producer == p
  {
    if h :| h in g && g[h].round == r && g[h].producer == p { assert h in Candidates(g, r, p); }
    if Candidates(g, r, p) != {} { var h :| h in Candidates(g, r, p); }
  }

  lemma AllCite(g: Graph, candidates: set<Hash>, above: set<Hash>)
    requires above <= g.Keys
    ensures |candidates| == 1 && (forall h :: h in above ==> CitesAny(g, h, candidates)) <==>
              exists c :: candidates == {c} && forall h :: h in above ==> c in g[h].parents
  {
    if |candidates| == 1 {
      var c :| c in candidates;
      assert |candidates - {c}| == 0;
      assert candidates == {c};
      forall h | h in above ensures CitesAny(g, h, candidates) <==> c in g[h].parents {
      }
    }
  }

  /** The scan passes an undecided round exactly when the store says it is passable. */
  lemma PassesIff(cfg: Config, g: Graph, n: nat, r: nat)
    ensures MayScanPast(cfg, g, n, r) <==> Passable(cfg, g, n, r)
  {
    hide Silent, DeadProducer, Vanished, RuledOut, AdjacentCertifyAgrees, SameEitherWay, Blamers, Ballots;
    VanishedIsDead(cfg, g, r);
    SameIsAgreed(cfg, g, n);
    if cfg.designated(r).Some? {
      var blamers := Blamers(g, r, Candidates(g, r, cfg.designated(r).value));
      assert blamers + {} == blamers;
    }
  }

  // ---- The whole decision -----------------------------------------------------------

  /** Nobody is left who could cite a candidate of round `n`. */
  ghost predicate NobodyLeft(cfg: Config, g: Graph, n: nat)
    requires cfg.designated(n).Some?
  {
    cfg.holders(n + 1).Some? ==>
      forall m :: m in cfg.holders(n + 1).value ==>
        || m.pubkey in Blamers(g, n, Candidates(g, n, cfg.designated(n).value))
        || m.pubkey in Silent(g, cfg.holders(n + 1).value, n + 1)
  }

  /** The certified vertex `x` settles round `n`: its history is whole and carries a candidate,
      or there is none to wait for. */
  ghost predicate Settles(cfg: Config, v: View, n: nat, x: Hash)
  {
    && cfg.designated(n).Some?
    && var candidates := Candidates(v.vertices, n, cfg.designated(n).value);
       if candidates == {} then cfg.relaxed(n) ==> Vanished(cfg, v.vertices, n)
       else
         && Complete(v, x)
         && (candidates * History(v, x) == {} && cfg.relaxed(n) ==> NobodyLeft(cfg, v.vertices, n))
  }

  lemma SettlesIff(cfg: Config, v: View, n: nat, x: Hash)
    ensures ResolveIndirect(cfg, v, n, x) != Wait <==> Settles(cfg, v, n, x)
  {
    hide Silent, DeadProducer, Vanished, Blamers, Candidates, History, Complete;
    VanishedIsDead(cfg, v.vertices, n);
  }

  /** Every round strictly between is blamed, or undecided and passable. */
  ghost predicate ClearBetween(cfg: Config, g: Graph, n: nat, k: nat)
  {
    forall r :: n < r < k ==>
      DirectVerdict(cfg, g, r) == Blamed || (DirectVerdict(cfg, g, r) == Undecided && Passable(cfg, g, n, r))
  }

  lemma {:induction false} ScanArrives(cfg: Config, v: View, n: nat, r: nat, k: nat, x: Hash)
    requires n < r <= k && DirectVerdict(cfg, v.vertices, k) == Certified(x) && ClearBetween(cfg, v.vertices, n, k)
    ensures Scan(cfg, v, n, r) == ResolveIndirect(cfg, v, n, x)
    decreases k - r
  {
    hide DirectVerdict, MayScanPast, ResolveIndirect, Passable;
    CertifiedMeans(cfg, v.vertices, k, x);
    if r < k {
      PassesIff(cfg, v.vertices, n, r);
      ScanArrives(cfg, v, n, r + 1, k, x);
    }
  }

  /** What an undecided round waits for, on the store. */
  ghost predicate Resolvable(cfg: Config, v: View, n: nat, k: nat, x: Hash)
  {
    FirstCertified(cfg, v.vertices, n, k, x) && ClearBetween(cfg, v.vertices, n, k) && Settles(cfg, v, n, x)
  }

  /** A node stops waiting on a round exactly when the round is certified or blamed directly,
      or a later certified vertex settles it with nothing standing between. */
  lemma DecidedIff(cfg: Config, v: View, n: nat)
    requires n <= HighestRound(v.vertices)
    ensures AnchorStatus(cfg, v, n) != Wait <==>
              match DirectVerdict(cfg, v.vertices, n)
              case Certified(_) => true
              case Blamed => true
              case Undecided => exists k: nat, x: Hash :: Resolvable(cfg, v, n, k, x)
              case NoStake => false
  {
    hide DirectVerdict, MayScanPast, ResolveIndirect, Passable, Settles;
    if DirectVerdict(cfg, v.vertices, n) == Undecided {
      if AnchorStatus(cfg, v, n) != Wait {
        var k, x := ScanResolver(cfg, v, n, n + 1);
        SettlesIff(cfg, v, n, x);
        forall r | n < r < k && DirectVerdict(cfg, v.vertices, r) == Undecided ensures Passable(cfg, v.vertices, n, r) {
          PassesIff(cfg, v.vertices, n, r);
        }
        assert Resolvable(cfg, v, n, k, x);
      }
      forall k: nat, x: Hash | Resolvable(cfg, v, n, k, x) ensures AnchorStatus(cfg, v, n) != Wait {
        ScanArrives(cfg, v, n, n + 1, k, x);
        SettlesIff(cfg, v, n, x);
      }
    }
  }

  /** Blame alone unblocks a node: an undecided strict round below a certified vertex with a
      whole history is decided once every round between is blamed or out of reach by blame,
      the adjacent one included. It commits exactly when that vertex carries a candidate. */
  lemma BlameDecides(cfg: Config, v: View, n: nat, k: nat, x: Hash)
    requires DirectVerdict(cfg, v.vertices, n) == Undecided && !cfg.relaxed(n) && cfg.designated(n).Some?
    requires FirstCertified(cfg, v.vertices, n, k, x) && Complete(v, x)
    requires forall r :: n < r < k ==>
              || DirectVerdict(cfg, v.vertices, r) == Blamed
              || (&& DirectVerdict(cfg, v.vertices, r) == Undecided && !cfg.relaxed(r)
                  && cfg.designated(r).Some? && cfg.holders(r + 1).Some?
                  && !Vanished(cfg, v.vertices, r)
                  && RuledOut(Ballots(cfg.holders(r + 1).value, cfg.capMille),
                              Blamers(v.vertices, r, Candidates(v.vertices, r, cfg.designated(r).value))))
    ensures AnchorStatus(cfg, v, n) != Wait
    ensures AnchorStatus(cfg, v, n).Commit? <==>
              Candidates(v.vertices, n, cfg.designated(n).value) * History(v, x) != {}
  {
    hide DirectVerdict, MayScanPast, ResolveIndirect, Vanished, RuledOut, Blamers, Candidates, History, Complete,
      Ballots;
    forall r | n < r < k && DirectVerdict(cfg, v.vertices, r) == Undecided ensures Passable(cfg, v.vertices, n, r) {
      var blamers := Blamers(v.vertices, r, Candidates(v.vertices, r, cfg.designated(r).value));
      assert blamers + {} == blamers;
    }
    CertifiedMeans(cfg, v.vertices, k, x);
    ScanArrives(cfg, v, n, n + 1, k, x);
    SettlesIff(cfg, v, n, x);
    ResolvedByCarrying(cfg, v, n, x);
  }
}
