/** Capped-stake voting weights and the strict two-thirds quorum
    (internal/consensus/stake.go). */
module Stake {
  import opened Common

  datatype Validator = Validator(pubkey: Hash, selfStake: u64, delegated: u64, jailed: bool, rewardCoin: Hash)

  /** A frozen holder snapshot, in the order its members were added. */
  type ValidatorSet = seq<Validator>

  /** One member's key and voting weight. */
  type Ballot = (Hash, nat)

  function EffectiveStake(v: Validator): (r: u64)
    ensures v.jailed ==> r == 0
    ensures !v.jailed && v.selfStake + v.delegated < WORD ==> r == v.selfStake + v.delegated
    ensures !v.jailed && v.selfStake + v.delegated >= WORD ==> r == MAX_U64
  {
    if v.jailed then 0 else SafeAdd(v.selfStake, v.delegated)
  }

  /** The ceiling is the larger of the configured share and an equal share, so a
      weight is never raised and never falls below an equal share it had earned. */
  function CappedWeight(effective: u64, total: u64, capMille: u64, setSize: nat): (r: u64)
    ensures r <= effective
    ensures setSize > 0 && effective <= total / setSize ==> r == effective
    ensures setSize > 0 && total > 0 && r < effective ==> r >= total / setSize
  {
    if setSize == 0 || total == 0 then effective
    else
      var share := SafeMul(total, capMille) / 1000;
      var equal := total / setSize;
      var ceiling := if share < equal then equal else share;
      if effective > ceiling then ceiling else effective
  }

  /** No weight is above both ceilings, and none is cut below the larger of them. */
  lemma CapIsTight(effective: u64, total: u64, capMille: u64, setSize: nat)
    requires setSize > 0 && total > 0 && total * capMille < WORD
    ensures var r := CappedWeight(effective, total, capMille, setSize);
            && (1000 * r <= total * capMille || r * setSize <= total)
            && (r < effective ==> 1000 * (r + 1) > total * capMille && (r + 1) * setSize > total)
  {
    Quotient(total * capMille, 1000);
    Quotient(total, setSize);
    var r, share, equal := CappedWeight(effective, total, capMille, setSize), total * capMille / 1000, total / setSize;
    if r <= share { Scale(r, share, 1000); } else { Scale(r, equal, setSize); }
    if r < effective { Scale(share + 1, r + 1, 1000); Scale(equal + 1, r + 1, setSize); }
  }

  lemma Quotient(x: nat, d: nat)
    requires d > 0
    ensures x / d * d <= x < (x / d + 1) * d
  {
  }

  lemma Scale(a: int, b: int, d: nat)
    requires a <= b
    ensures a * d <= b * d
  {
  }

  function QuorumReached(cappedSum: u64, total: u64): (r: bool)
    ensures r ==> total > 0
  {
    total != 0 && SafeMul(3, cappedSum) >= SafeMul(2, total)
  }

  /** The saturating test agrees with the exact two-thirds test on precisely the
      inputs outside the band where only the right-hand side overflows past the left. */
  lemma QuorumTestExactIff(cappedSum: u64, total: u64)
    ensures QuorumReached(cappedSum, total) == (total > 0 && 3 * cappedSum >= 2 * total)
       <==> !(MAX_U64 <= 3 * cappedSum < 2 * total)
  {
  }

  /** A concrete point of that band: about half of the total passes for two thirds. */
  lemma SaturatedQuorumMisfires()
    ensures QuorumReached(0x8000_0000_0000_0000, MAX_U64)
    ensures 3 * 0x8000_0000_0000_0000 < 2 * MAX_U64
  {
  }

  /** Sum of effective stakes, saturating. */
  function RawTotal(s: ValidatorSet): u64
  {
    if s == [] then 0 else SafeAdd(RawTotal(s[..|s| - 1]), EffectiveStake(s[|s| - 1]))
  }

  /** The voting weight of every member of a snapshot. */
  function Ballots(s: ValidatorSet, capMille: u64): (b: seq<Ballot>)
    ensures |b| == |s|
    ensures forall i :: 0 <= i < |s| ==> b[i].0 == s[i].pubkey && b[i].1 <= EffectiveStake(s[i])
  {
    seq(|s|, i requires 0 <= i < |s| =>
      (s[i].pubkey, CappedWeight(EffectiveStake(s[i]), RawTotal(s), capMille, |s|)))
  }

  /** The exact sum of effective stakes. */
  function StakeSum(s: ValidatorSet): nat
  {
    if s == [] then 0 else StakeSum(s[..|s| - 1]) + EffectiveStake(s[|s| - 1])
  }

  lemma {:induction false} RawTotalIsClamped(s: ValidatorSet)
    ensures RawTotal(s) == Clamp(StakeSum(s))
  {
    hide EffectiveStake;
    if s != [] { RawTotalIsClamped(s[..|s| - 1]); }
  }

  /** Every member votes with its whole effective stake, or with the larger of the configured
      and the equal share of the stake in the snapshot, to the unit. */
  lemma {:induction false} BallotsAreCapped(s: ValidatorSet, capMille: u64, i: nat)
    requires i < |s| && 0 < StakeSum(s) && StakeSum(s) * capMille < WORD && StakeSum(s) < WORD
    ensures var total, size := StakeSum(s), |s|;
            var stake, r := EffectiveStake(s[i]), Ballots(s, capMille)[i].1;
            && (1000 * r <= total * capMille || r * size <= total)
            && (r < stake ==> 1000 * (r + 1) > total * capMille && (r + 1) * size > total)
  {
    RawTotalIsClamped(s);
    CapIsTight(EffectiveStake(s[i]), RawTotal(s), capMille, |s|);
  }

  /** With seventy of a hundred units and a cap of three tenths, one member votes with thirty
      of sixty: not a quorum, which its stake alone would be. */
  lemma WhaleIsCapped()
    ensures var s := [Validator(1, 70, 0, false, 0), Validator(2, 10, 0, false, 0),
                      Validator(3, 10, 0, false, 0), Validator(4, 10, 0, false, 0)];
            && Ballots(s, 300) == [(1, 30), (2, 10), (3, 10), (4, 10)]
            && !StrictQuorum(Ballots(s, 300), {1}) && StrictQuorum(Ballots(s, 1000), {1})
  {
    var s := [Validator(1, 70, 0, false, 0), Validator(2, 10, 0, false, 0),
              Validator(3, 10, 0, false, 0), Validator(4, 10, 0, false, 0)];
    assert s[..3][..2] == s[..2] && s[..3][..2][..1] == s[..1];
    assert RawTotal(s[..1]) == 70 by { assert s[..1][..0] == []; }
    assert RawTotal(s[..2]) == 80 by { assert s[..2][..1] == s[..1]; }
    assert RawTotal(s[..3]) == 90;
    assert RawTotal(s) == 100;
    assert Ballots(s, 300) == [(1, 30), (2, 10), (3, 10), (4, 10)];
    assert Ballots(s, 1000) == [(1, 70), (2, 10), (3, 10), (4, 10)];
    FourWeights(30);
    FourWeights(70);
  }

  lemma FourWeights(w: nat)
    ensures var b: seq<Ballot> := [(1, w), (2, 10), (3, 10), (4, 10)];
            Weight(b, {1}) == w && Total(b) == w + 30
  {
    var b: seq<Ballot> := [(1, w), (2, 10), (3, 10), (4, 10)];
    var three: seq<Ballot>, two: seq<Ballot>, one: seq<Ballot> := b[..3], b[..2], b[..1];
    assert three[..2] == two && two[..1] == one && one[..0] == [];
    assert Weight(one, {1}) == w && Total(one) == w;
    assert Weight(two, {1}) == w && Total(two) == w + 10;
    assert Weight(three, {1}) == w && Total(three) == w + 20;
  }

  /** Exact (unbounded) weight the ballots give to a set of keys. */
  function Weight(b: seq<Ballot>, keys: set<Hash>): nat
  {
    if b == [] then 0
    else Weight(b[..|b| - 1], keys) + if b[|b| - 1].0 in keys then b[|b| - 1].1 else 0
  }

  function Total(b: seq<Ballot>): nat
  {
    if b == [] then 0 else Total(b[..|b| - 1]) + b[|b| - 1].1
  }

  function Clamp(x: nat): (r: u64)
  {
    if x < WORD then x else MAX_U64
  }

  /** The two sums a quorum test divides: what the producers carry, and what the
      whole snapshot carries, both capped. */
  method CappedStakeOf(s: ValidatorSet, capMille: u64, producers: set<Hash>)
    returns (cappedSum: u64, cappedTotal: u64)
    ensures cappedSum == Clamp(Weight(Ballots(s, capMille), producers))
    ensures cappedTotal == Clamp(Total(Ballots(s, capMille)))
  {
    hide EffectiveStake, CappedWeight, SafeAdd;
    var rawTotal: u64 := 0;
    for i := 0 to |s|
      invariant rawTotal == RawTotal(s[..i])
    {
      assert s[..i + 1][..i] == s[..i];
      rawTotal := SafeAdd(rawTotal, EffectiveStake(s[i]));
    }
    assert s[..|s|] == s;

    ghost var b := Ballots(s, capMille);
    cappedSum, cappedTotal := 0, 0;
    for i := 0 to |s|
      invariant cappedSum == Clamp(Weight(b[..i], producers))
      invariant cappedTotal == Clamp(Total(b[..i]))
    {
      assert b[..i + 1][..i] == b[..i];
      var weight := CappedWeight(EffectiveStake(s[i]), rawTotal, capMille, |s|);
      cappedTotal := SafeAdd(cappedTotal, weight);
      if s[i].pubkey in producers {
        cappedSum := SafeAdd(cappedSum, weight);
      }
    }
    assert b[..|s|] == b;
  }

  /** Whether a set of producers carries the strict quorum of a snapshot. */
  predicate StrictQuorum(b: seq<Ballot>, producers: set<Hash>)
  {
    QuorumReached(Clamp(Weight(b, producers)), Clamp(Total(b)))
  }

  /** Whether even everybody outside `nonSupporters` together falls short of the quorum. */
  predicate RuledOut(b: seq<Ballot>, nonSupporters: set<Hash>)
  {
    WeightBelowTotal(b, nonSupporters);
    var total := Clamp(Total(b));
    total != 0 && !QuorumReached(total - Clamp(Weight(b, nonSupporters)), total)
  }

  /** The snapshot's total leaves the quorum comparison exact. */
  ghost predicate Exact(b: seq<Ballot>)
  {
    2 * Total(b) < WORD
  }

  /** The faulty set holds less than one third of the voting weight. */
  ghost predicate UnderOneThird(b: seq<Ballot>, faulty: set<Hash>)
  {
    3 * Weight(b, faulty) < Total(b)
  }

  /** Where the comparison is exact, a strict quorum is two thirds of a positive total. */
  lemma StrictQuorumIff(b: seq<Ballot>, producers: set<Hash>)
    requires Exact(b)
    ensures StrictQuorum(b, producers) <==> Total(b) > 0 && 3 * Weight(b, producers) >= 2 * Total(b)
  {
    hide Weight, Total;
    WeightBelowTotal(b, producers);
  }

  /** And it is ruled out exactly when those left fall short of two thirds. */
  lemma RuledOutIff(b: seq<Ballot>, nonSupporters: set<Hash>)
    requires Exact(b)
    ensures RuledOut(b, nonSupporters) <==> 3 * (Total(b) - Weight(b, nonSupporters)) < 2 * Total(b)
  {
    hide Weight, Total;
    WeightBelowTotal(b, nonSupporters);
  }

  // ---- Weight algebra -------------------------------------------------------

  lemma {:induction false} WeightBelowTotal(b: seq<Ballot>, keys: set<Hash>)
    ensures Weight(b, keys) <= Total(b)
  {
    if b != [] { WeightBelowTotal(b[..|b| - 1], keys); }
  }

  lemma {:induction false} WeightMonotone(b: seq<Ballot>, p: set<Hash>, q: set<Hash>)
    requires p <= q
    ensures Weight(b, p) <= Weight(b, q)
  {
    if b != [] { WeightMonotone(b[..|b| - 1], p, q); }
  }

  lemma {:induction false} WeightInclusionExclusion(b: seq<Ballot>, p: set<Hash>, q: set<Hash>)
    ensures Weight(b, p) + Weight(b, q) == Weight(b, p + q) + Weight(b, p * q)
  {
    if b != [] { WeightInclusionExclusion(b[..|b| - 1], p, q); }
  }

  lemma StrictQuorumExact(b: seq<Ballot>, p: set<Hash>)
    requires Exact(b)
    ensures StrictQuorum(b, p) <==> Total(b) > 0 && 3 * Weight(b, p) >= 2 * Total(b)
  {
    WeightBelowTotal(b, p);
  }

  lemma RuledOutExact(b: seq<Ballot>, p: set<Hash>)
    requires Exact(b)
    ensures RuledOut(b, p) <==> Total(b) > 0 && 3 * (Total(b) - Weight(b, p)) < 2 * Total(b)
  {
    WeightBelowTotal(b, p);
  }

  /** Two quorums of one snapshot share a member outside any set below one third. */
  lemma QuorumIntersection(b: seq<Ballot>, p: set<Hash>, q: set<Hash>, faulty: set<Hash>)
    returns (member: Hash)
    requires Exact(b) && StrictQuorum(b, p) && StrictQuorum(b, q) && UnderOneThird(b, faulty)
    ensures member in p && member in q && member !in faulty
  {
    StrictQuorumExact(b, p);
    StrictQuorumExact(b, q);
    WeightInclusionExclusion(b, p, q);
    WeightBelowTotal(b, p + q);
    if p * q <= faulty { WeightMonotone(b, p * q, faulty); }
    member :| member in p * q && member !in faulty;
  }

  /** Once the non-supporters rule a quorum out, no set disjoint from them reaches it. */
  lemma RuledOutExcludesQuorum(b: seq<Ballot>, nonSupporters: set<Hash>, p: set<Hash>)
    requires Exact(b) && RuledOut(b, nonSupporters) && p !! nonSupporters
    ensures !StrictQuorum(b, p)
  {
    StrictQuorumExact(b, p);
    RuledOutExact(b, nonSupporters);
    WeightInclusionExclusion(b, p, nonSupporters);
    WeightBelowTotal(b, p + nonSupporters);
    EmptyWeight(b, p * nonSupporters);
  }

  lemma {:induction false} EmptyWeight(b: seq<Ballot>, p: set<Hash>)
    requires p == {}
    ensures Weight(b, p) == 0
  {
    if b != [] { EmptyWeight(b[..|b| - 1], p); }
  }
}
