/** Batched proof verification: the two-phase batch, and the verdict cursor of the commit
    loop (internal/aggregation/verify.go, internal/consensus/commit.go). */
module Proofs {
  import opened Common
  import Pool

  /** What the deterministic phase makes of one proof. */
  datatype Prepared<C> = Unreadable | Refused(reason: nat) | Check(check: C)

  datatype Atx<C> = Atx(hasTx: bool, noHolders: Option<nat>, proofs: seq<Prepared<C>>)

  datatype Error =
    | NoHolders(reason: nat)
    | BadRead(index: nat)
    | BadProof(index: nat, reason: nat)
    | BadSignature(index: nat)

  type Tagged<C> = (C, nat)

  // ---- One transaction ---------------------------------------------------------------

  /** collectATXChecks from proof `i` on: the checks gathered, and the first refusal. */
  function CollectFrom<C>(proofs: seq<Prepared<C>>, i: nat): (seq<Tagged<C>>, Option<Error>)
    requires i <= |proofs|
    decreases |proofs| - i
  {
    if i == |proofs| then ([], None)
    else match proofs[i]
      case Unreadable => ([], Some(BadRead(i)))
      case Refused(reason) => ([], Some(BadProof(i, reason)))
      case Check(c) => var (checks, err) := CollectFrom(proofs, i + 1); ([(c, i)] + checks, err)
  }

  function Collect<C>(atx: Atx<C>): (seq<Tagged<C>>, Option<Error>)
  {
    if atx.noHolders.Some? then ([], Some(NoHolders(atx.noHolders.value))) else CollectFrom(atx.proofs, 0)
  }

  function FirstBad<C>(checks: seq<Tagged<C>>, good: C -> bool): Option<Error>
  {
    if checks == [] then None
    else
      var n := |checks| - 1;
      var before := FirstBad(checks[..n], good);
      if before.Some? then before else if good(checks[n].0) then None else Some(BadSignature(checks[n].1))
  }

  /** The verdict a transaction gets in a batch of its own. */
  function Alone<C>(atx: Atx<C>, good: C -> bool): Option<Error>
  {
    var (checks, err) := Collect(atx);
    if err.Some? then err else FirstBad(checks, good)
  }

  /** The inline loop: each proof fully checked before the next is looked at. */
  function InlineFrom<C>(proofs: seq<Prepared<C>>, i: nat, good: C -> bool): Option<Error>
    requires i <= |proofs|
    decreases |proofs| - i
  {
    if i == |proofs| then None
    else match proofs[i]
      case Unreadable => Some(BadRead(i))
      case Refused(reason) => Some(BadProof(i, reason))
      case Check(c) => if good(c) then InlineFrom(proofs, i + 1, good) else Some(BadSignature(i))
  }

  function Inline<C>(atx: Atx<C>, good: C -> bool): Option<Error>
  {
    if atx.noHolders.Some? then Some(NoHolders(atx.noHolders.value)) else InlineFrom(atx.proofs, 0, good)
  }

  lemma {:induction false} FirstBadCons<C>(x: Tagged<C>, rest: seq<Tagged<C>>, good: C -> bool)
    ensures FirstBad([x] + rest, good) == if good(x.0) then FirstBad(rest, good) else Some(BadSignature(x.1))
  {
    if rest != [] {
      var n := |rest| - 1;
      assert ([x] + rest)[..n + 1] == [x] + rest[..n];
      FirstBadCons(x, rest[..n], good);
    }
  }

  lemma {:induction false} TwoPhases<C>(proofs: seq<Prepared<C>>, i: nat, good: C -> bool)
    requires i <= |proofs|
    ensures var (checks, err) := CollectFrom(proofs, i);
            InlineFrom(proofs, i, good) == if FirstBad(checks, good).Some? then FirstBad(checks, good) else err
    decreases |proofs| - i
  {
    if i < |proofs| && proofs[i].Check? {
      TwoPhases(proofs, i + 1, good);
      FirstBadCons((proofs[i].check, i), CollectFrom(proofs, i + 1).0, good);
    }
  }

  /** A readable proof with a bad signature, at `i`, precedes the first proof refused
      outright, at `j`. */
  predicate BadBeforeRefusal<C>(proofs: seq<Prepared<C>>, good: C -> bool, i: nat, j: nat)
  {
    && i < j < |proofs| && !proofs[j].Check?
    && (forall k :: 0 <= k < j ==> proofs[k].Check?)
    && !good(proofs[i].check)
  }

  /** Deferring signatures never changes which transactions pass. It reports a different
      error exactly when a bad signature precedes a proof that is refused outright. */
  lemma DeferringKeepsVerdict<C>(atx: Atx<C>, good: C -> bool)
    ensures Alone(atx, good).None? <==> Inline(atx, good).None?
    ensures Alone(atx, good) != Inline(atx, good) <==>
              atx.noHolders.None? && exists i: nat, j: nat :: BadBeforeRefusal(atx.proofs, good, i, j)
  {
    if atx.noHolders.None? {
      TwoPhases(atx.proofs, 0, good);
      RefusalIsNotSignature(atx.proofs, 0);
      BadIsSignature(Collect(atx).0, good);
      CollectedAre(atx.proofs, 0);
      BadIsAmong(Collect(atx).0, good);
      var (checks, err) := Collect(atx);
      forall k | 0 <= k < |checks| ensures atx.proofs[k] == Check(checks[k].0) {
        assert atx.proofs[0 + k] == Check(checks[k].0);
      }
      if err.Some? && FirstBad(checks, good).Some? {
        var k :| 0 <= k < |checks| && !good(checks[k].0);
        assert BadBeforeRefusal(atx.proofs, good, k, |checks|);
      }
      forall i: nat, j: nat | BadBeforeRefusal(atx.proofs, good, i, j)
        ensures err.Some? && FirstBad(checks, good).Some?
      {
        assert !good(checks[i].0);
      }
    }
  }

  /** The checks gathered are the readable proofs up to the first refusal, in order. */
  lemma {:induction false} CollectedAre<C>(proofs: seq<Prepared<C>>, i: nat)
    requires i <= |proofs|
    ensures var (checks, err) := CollectFrom(proofs, i);
            && i + |checks| <= |proofs|
            && (forall k :: 0 <= k < |checks| ==> proofs[i + k] == Check(checks[k].0))
            && (err.None? <==> i + |checks| == |proofs|)
            && (err.Some? ==> !proofs[i + |checks|].Check?)
    decreases |proofs| - i
  {
    if i < |proofs| && proofs[i].Check? {
      CollectedAre(proofs, i + 1);
      var checks := CollectFrom(proofs, i).0;
      forall k | 0 <= k < |checks| ensures proofs[i + k] == Check(checks[k].0) {
        if k > 0 { assert proofs[i + 1 + (k - 1)] == Check(CollectFrom(proofs, i + 1).0[k - 1].0); }
      }
    }
  }

  lemma {:induction false} BadIsAmong<C>(checks: seq<Tagged<C>>, good: C -> bool)
    ensures FirstBad(checks, good).Some? <==> exists k :: 0 <= k < |checks| && !good(checks[k].0)
  {
    if checks != [] {
      var n := |checks| - 1;
      BadIsAmong(checks[..n], good);
      if k :| 0 <= k < |checks| && !good(checks[k].0) {
        assert k < n ==> checks[..n][k] == checks[k];
      }
    }
  }

  /** A bad signature before a proof that is refused, say for too few signers: the batch
      reports the refusal, the inline loop the signature. */
  lemma DeferringReportsTheRefusal<C>(bad: C, good: C -> bool, reason: nat)
    requires !good(bad)
    ensures var atx := Atx(true, None, [Check(bad), Refused(reason)]);
            Alone(atx, good) == Some(BadProof(1, reason)) && Inline(atx, good) == Some(BadSignature(0))
  {
    var proofs := [Check(bad), Refused(reason)];
    assert CollectFrom(proofs, 1) == ([], Some(BadProof(1, reason)));
  }

  lemma {:induction false} RefusalIsNotSignature<C>(proofs: seq<Prepared<C>>, i: nat)
    requires i <= |proofs|
    ensures CollectFrom(proofs, i).1.Some? ==> !CollectFrom(proofs, i).1.value.BadSignature?
    decreases |proofs| - i
  {
    if i < |proofs| { RefusalIsNotSignature(proofs, i + 1); }
  }

  lemma {:induction false} BadIsSignature<C>(checks: seq<Tagged<C>>, good: C -> bool)
    ensures FirstBad(checks, good).Some? ==> FirstBad(checks, good).value.BadSignature?
  {
    if checks != [] { BadIsSignature(checks[..|checks| - 1], good); }
  }

  // ---- A whole batch ---------------------------------------------------------------------

  /** A planned check: its transaction, and the proof it belongs to. */
  datatype Planned<C> = Planned(atx: nat, proof: Tagged<C>)

  function Mine<C>(plan: seq<Planned<C>>, a: nat): seq<Tagged<C>>
  {
    if plan == [] then []
    else
      var n := |plan| - 1;
      Mine(plan[..n], a) + if plan[n].atx == a then [plan[n].proof] else []
  }

  lemma MinePush<C>(plan: seq<Planned<C>>, x: Planned<C>, a: nat)
    ensures Mine(plan + [x], a) == Mine(plan, a) + if x.atx == a then [x.proof] else []
  {
    assert (plan + [x])[..|plan|] == plan;
  }

  /** The deterministic phase for one transaction, appending to the shared plan. */
  method CollectChecks<C>(atx: Atx<C>, index: nat, plan: seq<Planned<C>>)
    returns (err: Option<Error>, plan': seq<Planned<C>>)
    ensures err == Collect(atx).1
    ensures Mine(plan', index) == Mine(plan, index) + Collect(atx).0
    ensures forall a :: a != index ==> Mine(plan', a) == Mine(plan, a)
    ensures forall k :: 0 <= k < |plan'| ==> (k < |plan| && plan'[k] == plan[k]) || plan'[k].atx == index
  {
    plan' := plan;
    if atx.noHolders.Some? { return Some(NoHolders(atx.noHolders.value)), plan'; }
    var i := 0;
    while i < |atx.proofs|
      invariant i <= |atx.proofs| && CollectFrom(atx.proofs, i).1 == Collect(atx).1
      invariant Mine(plan', index) + CollectFrom(atx.proofs, i).0 == Mine(plan, index) + Collect(atx).0
      invariant forall a :: a != index ==> Mine(plan', a) == Mine(plan, a)
      invariant forall k :: 0 <= k < |plan'| ==> (k < |plan| && plan'[k] == plan[k]) || plan'[k].atx == index
    {
      match atx.proofs[i] {
        case Unreadable => return Some(BadRead(i)), plan';
        case Refused(reason) => return Some(BadProof(i, reason)), plan';
        case Check(c) =>
          forall a ensures Mine(plan' + [Planned(index, (c, i))], a) ==
                             Mine(plan', a) + if index == a then [(c, i)] else [] {
            MinePush(plan', Planned(index, (c, i)), a);
          }
          plan' := plan' + [Planned(index, (c, i))];
      }
      i := i + 1;
    }
    err := None;
  }

  /** Run the planned checks on a pool, the scheduler choosing any runnable worker. */
  method RunPool<C>(plan: seq<Planned<C>>, good: C -> bool, maxWorkers: nat) returns (verdicts: seq<bool>)
    requires maxWorkers > 0
    ensures |verdicts| == |plan| && forall k :: 0 <= k < |plan| ==> verdicts[k] == good(plan[k].proof.0)
  {
    if plan == [] { return []; }
    var check := (k: nat) => k < |plan| && good(plan[k].proof.0);
    var pool := Pool.Start(|plan|, if maxWorkers > |plan| then |plan| else maxWorkers);
    Pool.StartInv(|plan|, |pool.workers|, check);
    while !Pool.Finished(pool)
      invariant Pool.Inv(pool, check) && |pool.slots| == |plan| && |pool.workers| > 0
      decreases Pool.Rank(pool)
    {
      var w: nat :| w < |pool.workers| && !pool.workers[w].Done?;
      Pool.ActInv(pool, w, check);
      Pool.ActLowersRank(pool, w, check);
      pool := Pool.Act(pool, w, check);
    }
    Pool.FinishedIsComplete(pool, check);
    verdicts := seq(|plan|, k requires 0 <= k < |pool.slots| => pool.slots[k].value);
  }

  method ApplyVerdicts<C>(ghost atxs: seq<Atx<C>>, plan: seq<Planned<C>>, verdicts: seq<bool>,
                          good: C -> bool, results: array<Option<Error>>)
    requires |verdicts| == |plan| && results.Length == |atxs|
    requires forall k :: 0 <= k < |plan| ==> plan[k].atx < |atxs| && verdicts[k] == good(plan[k].proof.0)
    requires forall a :: 0 <= a < |atxs| ==> results[a] == Collect(atxs[a]).1 && Mine(plan, a) == Collect(atxs[a]).0
    modifies results
    ensures forall a :: 0 <= a < |atxs| ==> results[a] == Alone(atxs[a], good)
  {
    for k := 0 to |plan|
      invariant forall a :: 0 <= a < |atxs| ==>
                  results[a] == if Collect(atxs[a]).1.Some? then Collect(atxs[a]).1
                            else FirstBad(Mine(plan[..k], a), good)
    {
      assert plan[..k + 1] == plan[..k] + [plan[k]];
      forall a: nat | a < |atxs|
        ensures FirstBad(Mine(plan[..k + 1], a), good) ==
                  if FirstBad(Mine(plan[..k], a), good).None? && plan[k].atx == a && !verdicts[k]
                  then Some(BadSignature(plan[k].proof.1)) else FirstBad(Mine(plan[..k], a), good) {
        MinePush(plan[..k], plan[k], a);
        if plan[k].atx == a {
          FirstBadPush(Mine(plan[..k], a), plan[k].proof, good);
        } else {
          assert Mine(plan[..k + 1], a) == Mine(plan[..k], a);
        }
      }
      var a := plan[k].atx;
      if !verdicts[k] && results[a].None? {
        results[a] := Some(BadSignature(plan[k].proof.1));
      }
    }
    assert plan[..|plan|] == plan;
  }

  lemma FirstBadPush<C>(checks: seq<Tagged<C>>, x: Tagged<C>, good: C -> bool)
    ensures FirstBad(checks + [x], good) ==
              if FirstBad(checks, good).Some? then FirstBad(checks, good)
              else if good(x.0) then None else Some(BadSignature(x.1))
  {
    assert (checks + [x])[..|checks|] == checks;
  }

  lemma NothingMine<C>()
    ensures forall a :: Mine<C>([], a) == []
  {
  }

  /** VerifyBatch gives every transaction exactly the verdict it gets alone, whatever else
      is in the batch and however the workers are scheduled. */
  method VerifyBatch<C>(atxs: seq<Atx<C>>, good: C -> bool, maxWorkers: nat) returns (out: seq<Option<Error>>)
    requires maxWorkers > 0
    ensures |out| == |atxs| && forall a :: 0 <= a < |atxs| ==> out[a] == Alone(atxs[a], good)
  {
    hide Collect, FirstBad, Alone, Mine;
    var results := new Option<Error>[|atxs|](_ => None);
    var plan: seq<Planned<C>> := [];
    NothingMine<C>();
    for n := 0 to |atxs|
      invariant forall a :: 0 <= a < n ==> results[a] == Collect(atxs[a]).1 && Mine(plan, a) == Collect(atxs[a]).0
      invariant forall a :: n <= a ==> Mine(plan, a) == []
      invariant forall k :: 0 <= k < |plan| ==> plan[k].atx < n
    {
      var err;
      err, plan := CollectChecks(atxs[n], n, plan);
      results[n] := err;
    }
    var verdicts := RunPool(plan, good, maxWorkers);
    ApplyVerdicts(atxs, plan, verdicts, good, results);
    out := results[..];
  }

  // ---- The commit loop's cursor -------------------------------------------------------------

  predicate Bears<C>(tx: Option<Atx<C>>)
  {
    tx.Some? && tx.value.hasTx && tx.value.proofs != []
  }

  /** collectRoundProofs: the proof-bearing transactions, in committed order. */
  function Bearing<C>(txs: seq<Option<Atx<C>>>): seq<Atx<C>>
  {
    if txs == [] then []
    else
      var n := |txs| - 1;
      Bearing(txs[..n]) + if Bears(txs[n]) then [txs[n].value] else []
  }

  lemma {:induction false} BearingPrefix<C>(txs: seq<Option<Atx<C>>>, n: nat)
    requires n <= |txs|
    ensures Bearing(txs[..n]) <= Bearing(txs)
    decreases |txs| - n
  {
    if n < |txs| {
      assert txs[..n + 1][..n] == txs[..n];
      BearingPrefix(txs, n + 1);
    } else {
      assert txs[..n] == txs;
    }
  }

  class ProofVerdicts {
    const errs: seq<Option<Error>>
    var cursor: nat

    constructor (errs: seq<Option<Error>>)
      ensures this.errs == errs && cursor == 0
    {
      this.errs, cursor := errs, 0;
    }

    method Next(hasProofs: bool) returns (err: Option<Error>)
      modifies this
      ensures if hasProofs && old(cursor) < |errs| then err == errs[old(cursor)] && cursor == old(cursor) + 1
              else err == None && cursor == old(cursor)
    {
      if !hasProofs { return None; }
      if cursor >= |errs| { return None; }
      err := errs[cursor];
      cursor := cursor + 1;
    }
  }

  method CollectRoundProofs<C>(txs: seq<Option<Atx<C>>>) returns (atxs: seq<Atx<C>>)
    ensures atxs == Bearing(txs)
  {
    atxs := [];
    for i := 0 to |txs|
      invariant atxs == Bearing(txs[..i])
    {
      assert txs[..i + 1][..i] == txs[..i];
      if txs[i].None? { continue; }
      if !txs[i].value.hasTx { continue; }
      if txs[i].value.proofs == [] { continue; }
      atxs := atxs + [txs[i].value];
    }
    assert txs[..|txs|] == txs;
  }

  /** The sequential apply loop hands each proof-bearing transaction its own verdict, and
      no verdict to any other. */
  method ApplyRound<C>(txs: seq<Option<Atx<C>>>, good: C -> bool, maxWorkers: nat) returns (given: seq<Option<Error>>)
    requires maxWorkers > 0
    ensures |given| == |txs|
    ensures forall i :: 0 <= i < |txs| ==> given[i] == if Bears(txs[i]) then Alone(txs[i].value, good) else None
  {
    var atxs := CollectRoundProofs(txs);
    var errs := VerifyBatch(atxs, good, maxWorkers);
    var verdicts := new ProofVerdicts(errs);
    given := [];
    for i := 0 to |txs|
      invariant fresh(verdicts) && verdicts.cursor == |Bearing(txs[..i])| && |given| == i
      invariant forall j :: 0 <= j < i ==> given[j] == if Bears(txs[j]) then Alone(txs[j].value, good) else None
    {
      assert txs[..i + 1][..i] == txs[..i];
      BearingPrefix(txs, i + 1);
      if txs[i].None? || !txs[i].value.hasTx {
        given := given + [None];
        continue;
      }
      var err := verdicts.Next(txs[i].value.proofs != []);
      given := given + [err];
    }
  }
}
