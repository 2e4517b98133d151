/** The verification worker pool under every interleaving of its workers
    (internal/attest/batch.go). */
module Pool {

  datatype Worker = Idle | Busy(index: nat) | Done

  /** A result slot and how often it was written. */
  datatype Slot = Slot(value: bool, writes: nat)

  datatype State = State(next: nat, slots: seq<Slot>, workers: seq<Worker>)

  function Start(items: nat, workers: nat): State
  {
    State(0, seq(items, _ => Slot(false, 0)), seq(workers, _ => Idle))
  }

  /** One atomic action of worker `w`: draw the next index, or write a verdict. */
  function Act(s: State, w: nat, check: nat -> bool): State
    requires w < |s.workers| && !s.workers[w].Done?
    requires s.workers[w].Busy? ==> s.workers[w].index < |s.slots|
  {
    match s.workers[w]
    case Idle =>
      State(s.next + 1, s.slots, s.workers[w := if s.next >= |s.slots| then Done else Busy(s.next)])
    case Busy(i) =>
      s.(slots := s.slots[i := Slot(check(i), s.slots[i].writes + 1)], workers := s.workers[w := Idle])
  }

  ghost predicate Held(s: State, i: nat)
  {
    exists w :: 0 <= w < |s.workers| && s.workers[w] == Busy(i)
  }

  /** Each index is undrawn, held by one worker, or written once with its own verdict. */
  ghost predicate Inv(s: State, check: nat -> bool)
  {
    && (forall w :: 0 <= w < |s.workers| && s.workers[w].Busy? ==>
          s.workers[w].index < s.next && s.workers[w].index < |s.slots|)
    && (forall v, w :: 0 <= v < w < |s.workers| && s.workers[v].Busy? ==> s.workers[v] != s.workers[w])
    && (forall w :: 0 <= w < |s.workers| && s.workers[w].Done? ==> s.next >= |s.slots|)
    && (forall i: nat :: i < |s.slots| ==>
          if i < s.next && !Held(s, i) then s.slots[i] == Slot(check(i), 1) else s.slots[i].writes == 0)
  }

  lemma StartInv(items: nat, workers: nat, check: nat -> bool)
    ensures Inv(Start(items, workers), check)
  {
  }

  lemma HeldAfter(s: State, w: nat, check: nat -> bool, i: nat)
    requires w < |s.workers| && !s.workers[w].Done? && (s.workers[w].Busy? ==> s.workers[w].index < |s.slots|)
    ensures var s' := Act(s, w, check);
            Held(s', i) <==>
              s'.workers[w] == Busy(i) || exists v :: 0 <= v < |s.workers| && v != w && s.workers[v] == Busy(i)
  {
    var s' := Act(s, w, check);
    if v :| 0 <= v < |s.workers| && v != w && s.workers[v] == Busy(i) { assert s'.workers[v] == Busy(i); }
    if s'.workers[w] == Busy(i) { assert Held(s', i); }
  }

  lemma ActInv(s: State, w: nat, check: nat -> bool)
    requires Inv(s, check) && w < |s.workers| && !s.workers[w].Done?
    ensures Inv(Act(s, w, check), check) && |Act(s, w, check).slots| == |s.slots|
  {
    var s' := Act(s, w, check);
    forall i: nat | i < |s'.slots|
      ensures if i < s'.next && !Held(s', i) then s'.slots[i] == Slot(check(i), 1) else s'.slots[i].writes == 0 {
      HeldAfter(s, w, check, i);
      SlotAfter(s, w, check, i);
    }
  }

  lemma SlotAfter(s: State, w: nat, check: nat -> bool, i: nat)
    requires Inv(s, check) && w < |s.workers| && !s.workers[w].Done? && i < |s.slots|
    requires var s' := Act(s, w, check);
             Held(s', i) <==>
               s'.workers[w] == Busy(i) || exists v :: 0 <= v < |s.workers| && v != w && s.workers[v] == Busy(i)
    ensures var s' := Act(s, w, check);
            if i < s'.next && !Held(s', i) then s'.slots[i] == Slot(check(i), 1) else s'.slots[i].writes == 0
  {
    if s.workers[w] == Busy(i) { assert Held(s, i); }
    if v :| 0 <= v < |s.workers| && v != w && s.workers[v] == Busy(i) { assert Held(s, i); }
  }

  predicate Finished(s: State)
  {
    forall w :: 0 <= w < |s.workers| ==> s.workers[w].Done?
  }

  // ---- Termination -------------------------------------------------------------------

  function Load(workers: seq<Worker>): nat
  {
    if workers == [] then 0
    else Load(workers[1..]) + match workers[0] case Idle => 1 case Busy(_) => 2 case Done => 0
  }

  /** Every action of every worker lowers this rank. */
  function Rank(s: State): nat
  {
    (if s.next < |s.slots| then 2 * (|s.slots| - s.next) else 0) + Load(s.workers)
  }

  lemma {:induction false} LoadUpdate(workers: seq<Worker>, w: nat, x: Worker)
    requires w < |workers|
    ensures Load(workers[w := x]) == Load(workers) - Load([workers[w]]) + Load([x])
  {
    if w == 0 {
      assert workers[w := x][1..] == workers[1..];
    } else {
      assert workers[w := x][1..] == workers[1..][w - 1 := x];
      LoadUpdate(workers[1..], w - 1, x);
    }
  }

  lemma ActLowersRank(s: State, w: nat, check: nat -> bool)
    requires Inv(s, check) && w < |s.workers| && !s.workers[w].Done?
    ensures Rank(Act(s, w, check)) < Rank(s)
  {
    LoadUpdate(s.workers, w, Act(s, w, check).workers[w]);
  }

  // ---- Every schedule ------------------------------------------------------------------

  ghost predicate IsRun(states: seq<State>, schedule: seq<nat>, items: nat, workers: nat, check: nat -> bool)
  {
    && |states| == |schedule| + 1 && states[0] == Start(items, workers)
    && forall j :: 0 <= j < |schedule| ==>
         && schedule[j] < |states[j].workers| && !states[j].workers[schedule[j]].Done?
         && (states[j].workers[schedule[j]].Busy? ==> states[j].workers[schedule[j]].index < |states[j].slots|)
         && states[j + 1] == Act(states[j], schedule[j], check)
  }

  lemma {:induction false} RunInv(states: seq<State>, schedule: seq<nat>, items: nat, workers: nat,
                                  check: nat -> bool, i: nat)
    requires IsRun(states, schedule, items, workers, check) && i < |states|
    ensures Inv(states[i], check) && |states[i].slots| == items && |states[i].workers| == workers
    ensures Rank(states[i]) + i <= Rank(Start(items, workers))
  {
    hide Inv, Rank;
    if i == 0 {
      StartInv(items, workers, check);
    } else {
      RunInv(states, schedule, items, workers, check, i - 1);
      assert states[i - 1 + 1] == Act(states[i - 1], schedule[i - 1], check);
      ActInv(states[i - 1], schedule[i - 1], check);
      ActLowersRank(states[i - 1], schedule[i - 1], check);
    }
  }

  lemma {:induction false} AllIdle(n: nat)
    ensures Load(seq(n, _ => Idle)) == n
  {
    if n > 0 {
      assert seq(n, _ => Idle)[1..] == seq(n - 1, _ => Idle);
      AllIdle(n - 1);
    }
  }

  /** Under every schedule of at least one worker the pool stops within 2n + workers
      actions, and when it stops each check has run exactly once, into its own slot. */
  lemma EverySchedule(states: seq<State>, schedule: seq<nat>, items: nat, workers: nat, check: nat -> bool)
    requires workers > 0 && IsRun(states, schedule, items, workers, check)
    ensures |schedule| <= 2 * items + workers
    ensures Finished(states[|schedule|]) ==>
              forall i: nat :: i < items ==>
                |states[|schedule|].slots| == items && states[|schedule|].slots[i] == Slot(check(i), 1)
  {
    RunInv(states, schedule, items, workers, check, |schedule|);
    AllIdle(workers);
    assert Rank(Start(items, workers)) == 2 * items + workers by {
      assert Start(items, workers).workers == seq(workers, _ => Idle);
    }
    var last := states[|schedule|];
    if Finished(last) { FinishedIsComplete(last, check); }
  }

  lemma FinishedIsComplete(s: State, check: nat -> bool)
    requires Inv(s, check) && Finished(s) && |s.workers| > 0
    ensures forall i: nat :: i < |s.slots| ==> s.slots[i] == Slot(check(i), 1)
  {
    assert s.workers[0].Done?;
  }
}
