/** The commit clock: cursor, epoch counter, frozen holder snapshots and the strict latch,
    with the copy each decision persists (internal/consensus/epoch.go, regime.go, commit.go). */
module Clock {
  import opened Common
  import Stake

  type Holders = Stake.ValidatorSet

  datatype Params = Params(epochLength: u64, minValidators: nat, grace: u64, buffer: u64)

  /** `cursor` is the next round to decide. */
  datatype Clock = Clock(cursor: u64, epoch: u64, holders: Option<Holders>, prev: Option<Holders>,
                         next: Option<Holders>, latched: bool, strictStart: u64)

  datatype Node = Node(live: Clock, durable: Clock, dirty: bool)

  const GENESIS: Clock := Clock(0, 0, None, None, None, false, 0)

  // ---- What the clock says --------------------------------------------------------------

  predicate IsBoundary(p: Params, round: u64)
  {
    p.epochLength != 0 && round != 0 && round % p.epochLength == 0
  }

  /** A boundary round is committed before its transition, so it belongs to the epoch it closes. */
  function CommitEpoch(p: Params, round: u64): (e: u64)
    ensures e <= round
  {
    if p.epochLength == 0 then 0
    else
      QuotientBound(round, p.epochLength);
      var e := round / p.epochLength;
      if e > 0 && round % p.epochLength == 0 then e - 1 else e
  }

  lemma QuotientBound(x: u64, d: u64)
    requires d > 0
    ensures 0 <= x / d <= x
  {
  }

  function HoldersFor(c: Clock, epoch: nat): Option<Holders>
  {
    if epoch == c.epoch then c.holders
    else if c.epoch > 0 && epoch == c.epoch - 1 && c.prev.Some? then c.prev
    else if epoch == c.epoch + 1 then
      if c.next.Some? then c.next else if c.epoch == 0 then c.holders else None
    else None
  }

  predicate Relaxed(p: Params, c: Clock, round: nat)
  {
    p.minValidators != 0 && (!c.latched || round < c.strictStart)
  }

  // ---- Steps ------------------------------------------------------------------------------

  /** latchStrictRegime, with the 64-bit sum it computes. */
  function Latch(p: Params, c: Clock, atRound: u64): Clock
    requires atRound < MAX_U64
  {
    if c.latched then c
    else
      var start := (atRound + p.grace + p.buffer) % WORD;
      c.(strictStart := if start < atRound + 1 then atRound + 1 else start, latched := true)
  }

  /** refreezeGenesisRegime while the cursor's round is being applied. */
  function Refreeze(p: Params, c: Clock, frozen: Holders, staked: nat): Clock
    requires c.cursor < MAX_U64
  {
    if c.latched then c
    else
      var grown := if c.epoch == 0 then c.(holders := Some(frozen)) else c;
      if p.minValidators > 0 && staked >= p.minValidators then Latch(p, grown, c.cursor) else grown
  }

  /** transitionEpoch: retain the outgoing snapshot, freeze the new one, reuse it ahead. */
  function Transition(c: Clock, liveSet: Holders, frozen: Holders): Clock
    requires c.epoch < MAX_U64
  {
    c.(prev := if c.holders.Some? then c.holders else Some(liveSet),
       holders := Some(frozen), next := Some(frozen), epoch := c.epoch + 1)
  }

  /** An empty snapshot is written as a count-0 record, which is read back as absent. */
  function Kept(hs: Option<Holders>): Option<Holders>
  {
    if hs == Some([]) then None else hs
  }

  /** What a written clock reads back as. */
  function Stored(c: Clock): Clock
  {
    c.(holders := Kept(c.holders), prev := Kept(c.prev), next := Kept(c.next))
  }

  /** advanceCommitCursor: the epoch state is written with the cursor at a boundary and
      whenever the regime changed; otherwise the cursor is written alone. */
  function Advance(p: Params, n: Node, liveSet: Holders, frozen: Holders): Node
    requires n.live.cursor < MAX_U64 && n.live.epoch < MAX_U64
  {
    var moved := n.live.(cursor := n.live.cursor + 1);
    if IsBoundary(p, n.live.cursor) then
      var turned := Transition(moved, liveSet, frozen);
      Node(turned, Stored(turned), false)
    else if n.dirty then Node(moved, Stored(moved), false)
    else Node(moved, n.durable.(cursor := moved.cursor), false)
  }

  datatype Event =
    | Registered(frozen: Holders, staked: nat)
    | Decided(liveSet: Holders, frozen: Holders)
    | Restarted

  ghost predicate Step(p: Params, n: Node, e: Event, n': Node)
  {
    match e
    case Registered(frozen, staked) =>
      n.live.cursor < MAX_U64 && n' == n.(live := Refreeze(p, n.live, frozen, staked), dirty := true)
    case Decided(liveSet, frozen) =>
      n.live.cursor < MAX_U64 && n.live.epoch < MAX_U64 && n' == Advance(p, n, liveSet, frozen)
    case Restarted => n' == Node(n.durable, n.durable, false)
  }

  // ---- What the numbers mean -----------------------------------------------------------------

  /** Epoch `e` is exactly the rounds after its opening boundary up to its closing one. */
  lemma EpochSpan(p: Params, round: u64, e: nat)
    requires p.epochLength > 0
    ensures CommitEpoch(p, round) == e <==>
              if round == 0 then e == 0 else e * p.epochLength < round <= (e + 1) * p.epochLength
  {
    hide CommitEpoch;
    var d, c := p.epochLength, CommitEpoch(p, round);
    InsideEpoch(p, round);
    if round > 0 && e * d < round <= (e + 1) * d { OneSpan(d, e, c, round); }
  }

  lemma InsideEpoch(p: Params, round: u64)
    requires p.epochLength > 0
    ensures var c := CommitEpoch(p, round);
            if round == 0 then c == 0 else c * p.epochLength < round <= (c + 1) * p.epochLength
  {
    var d, q := p.epochLength, round / p.epochLength;
    assert round == d * q + round % d;
    assert d * (q - 1) == d * q - d && d * (q + 1) == d * q + d;
  }

  lemma OneSpan(d: nat, a: nat, b: nat, x: nat)
    requires a * d < x <= (a + 1) * d && b * d < x <= (b + 1) * d
    ensures a == b
  {
    Spread(d, a, b);
    Spread(d, b, a);
  }

  lemma Spread(d: nat, a: nat, b: nat)
    ensures a < b ==> (a + 1) * d <= b * d
  {
    if a < b { Multiple(d, a + 1, b); }
  }

  /** The latch leaves grace and buffer after the round it fires in, and is never earlier than
      the next round even where their sum wraps. */
  lemma LatchPoint(p: Params, c: Clock, atRound: u64)
    requires !c.latched && atRound < MAX_U64
    ensures var start := Latch(p, c, atRound).strictStart;
            && start > atRound && Latch(p, c, atRound).latched
            && (atRound < atRound + p.grace + p.buffer < WORD ==> start == atRound + p.grace + p.buffer)
            && (p.grace + p.buffer == 0 ==> start == atRound + 1)
  {
  }

  /** The latch is armed by the first registration that reaches the required membership, and
      by nothing else. */
  lemma LatchFiresIff(p: Params, c: Clock, frozen: Holders, staked: nat)
    requires c.cursor < MAX_U64
    ensures Refreeze(p, c, frozen, staked).latched <==> c.latched || (0 < p.minValidators <= staked)
    ensures c.latched ==> Refreeze(p, c, frozen, staked) == c
    ensures !c.latched && c.epoch == 0 ==> Refreeze(p, c, frozen, staked).holders == Some(frozen)
    ensures c.epoch > 0 ==> Refreeze(p, c, frozen, staked).holders == c.holders
  {
  }

  /** A round is strict exactly when no bootstrap is configured, or the latch has fired and the
      round is not before its start. */
  lemma StrictIff(p: Params, c: Clock, round: nat)
    ensures !Relaxed(p, c, round) <==> p.minValidators == 0 || (c.latched && c.strictStart <= round)
  {
  }

  // ---- Invariants ---------------------------------------------------------------------------

  /** The epoch is the cursor's, and past genesis the forward proxy is the epoch's own snapshot. */
  ghost predicate InStep(p: Params, c: Clock)
  {
    && c.epoch == CommitEpoch(p, c.cursor)
    && c.next == (if c.epoch > 0 then c.holders else None)
    && (c.latched ==> p.minValidators > 0 && c.strictStart > 0)
  }

  /** The persisted copy reads back as the live clock of the last decision would, unless a
      change is pending. */
  ghost predicate Consistent(p: Params, n: Node)
  {
    && InStep(p, n.live) && InStep(p, n.durable)
    && n.durable.cursor == n.live.cursor && n.durable == Stored(n.durable)
    && (n.live.epoch > 0 ==>
          n.durable == Stored(n.live).(latched := n.durable.latched, strictStart := n.durable.strictStart))
    && (!n.dirty ==> n.durable == Stored(n.live))
  }

  /** Every boundary, and only a boundary, moves the epoch of the next round. */
  lemma NextRoundsEpoch(p: Params, round: u64)
    requires round < MAX_U64
    ensures CommitEpoch(p, round + 1) == CommitEpoch(p, round) + if IsBoundary(p, round) then 1 else 0
  {
    if p.epochLength != 0 {
      Successor(round, p.epochLength);
      var q, r := round / p.epochLength, round % p.epochLength;
      assert round == p.epochLength * q + r;
      if r == 0 && round != 0 { assert q > 0; }
    }
  }

  lemma Successor(x: nat, d: nat)
    requires d > 0
    ensures x % d + 1 < d ==> (x + 1) / d == x / d && (x + 1) % d == x % d + 1
    ensures x % d + 1 == d ==> (x + 1) / d == x / d + 1 && (x + 1) % d == 0
  {
    var q, r := x / d, x % d;
    assert x == d * q + r;
    if r + 1 < d {
      Unique(x + 1, d, q, r + 1);
    } else {
      assert d * (q + 1) == d * q + d;
      Unique(x + 1, d, q + 1, 0);
    }
  }

  lemma Unique(x: nat, d: nat, q: nat, r: nat)
    requires d > 0 && x == d * q + r && r < d
    ensures x / d == q && x % d == r
  {
    var q' := x / d;
    assert d * q' <= x < d * q' + d;
    if q < q' { Multiple(d, q + 1, q'); }
    if q' < q { Multiple(d, q' + 1, q); }
  }

  lemma Multiple(d: nat, a: nat, b: nat)
    requires a <= b
    ensures d * a <= d * b && d * a == d * (a - 1) + d
  {
  }

  lemma AdvanceInStep(p: Params, c: Clock, liveSet: Holders, frozen: Holders)
    requires InStep(p, c) && c.cursor < MAX_U64 && c.epoch < MAX_U64
    ensures var moved := c.(cursor := c.cursor + 1);
            InStep(p, if IsBoundary(p, c.cursor) then Transition(moved, liveSet, frozen) else moved)
  {
    NextRoundsEpoch(p, c.cursor);
  }

  lemma StepConsistent(p: Params, n: Node, e: Event, n': Node)
    requires Consistent(p, n) && Step(p, n, e, n')
    ensures Consistent(p, n')
  {
    hide CommitEpoch, IsBoundary;
    match e
    case Registered(frozen, staked) =>
    case Decided(liveSet, frozen) =>
      AdvanceInStep(p, n.live, liveSet, frozen);
      AdvanceInStep(p, n.durable, liveSet, frozen);
    case Restarted =>
  }

  /** Frozen holders answer for the round being decided and for the next one exactly when
      the genesis snapshot has been frozen. */
  lemma HoldersResolve(p: Params, c: Clock)
    requires InStep(p, c) && c.cursor < MAX_U64
    ensures HoldersFor(c, CommitEpoch(p, c.cursor)).Some? <==> c.holders.Some?
    ensures HoldersFor(c, CommitEpoch(p, c.cursor + 1)).Some? <==> c.holders.Some?
  {
    NextRoundsEpoch(p, c.cursor);
    hide CommitEpoch;
  }

  // ---- Runs ---------------------------------------------------------------------------------

  ghost predicate IsRun(p: Params, nodes: seq<Node>, events: seq<Event>)
  {
    && |nodes| == |events| + 1 && nodes[0] == Node(GENESIS, GENESIS, false)
    && forall j :: 0 <= j < |events| ==> Step(p, nodes[j], events[j], nodes[j + 1])
  }

  /** Over every run, crashes and restarts included: the epoch counter is the cursor
      round's epoch, live and on disk, and holders resolve for this round and the next
      exactly while a snapshot is in force. */
  lemma {:induction false} ClockIsConsistent(p: Params, nodes: seq<Node>, events: seq<Event>, i: nat)
    requires IsRun(p, nodes, events) && i < |nodes|
    ensures Consistent(p, nodes[i])
    ensures nodes[i].live.epoch == CommitEpoch(p, nodes[i].live.cursor)
    ensures nodes[i].live.cursor < MAX_U64 ==>
              && (HoldersFor(nodes[i].live, CommitEpoch(p, nodes[i].live.cursor)).Some?
                  <==> nodes[i].live.holders.Some?)
              && (HoldersFor(nodes[i].live, CommitEpoch(p, nodes[i].live.cursor + 1)).Some?
                  <==> nodes[i].live.holders.Some?)
  {
    hide CommitEpoch, Step, HoldersFor;
    if i == 0 {
      GenesisConsistent(p);
    } else {
      ClockIsConsistent(p, nodes, events, i - 1);
      assert Step(p, nodes[i - 1], events[i - 1], nodes[i - 1 + 1]);
      StepConsistent(p, nodes[i - 1], events[i - 1], nodes[i]);
    }
    if nodes[i].live.cursor < MAX_U64 { HoldersResolve(p, nodes[i].live); }
  }

  lemma GenesisConsistent(p: Params)
    ensures Consistent(p, Node(GENESIS, GENESIS, false))
  {
  }

  /** Event `i` of a run decides an epoch boundary. */
  ghost predicate Turns(p: Params, nodes: seq<Node>, events: seq<Event>, i: nat)
    requires |nodes| == |events| + 1 && i < |events|
  {
    events[i].Decided? && IsBoundary(p, nodes[i].live.cursor)
  }

  /** The last boundary before `i` froze an empty committee. */
  ghost predicate FrozeNobody(p: Params, nodes: seq<Node>, events: seq<Event>, i: nat)
    requires |nodes| == |events| + 1 && i < |nodes|
  {
    i > 0 && if Turns(p, nodes, events, i - 1) then events[i - 1].frozen == [] else FrozeNobody(p, nodes, events, i - 1)
  }

  /** And the node restarted since. */
  ghost predicate Dropped(p: Params, nodes: seq<Node>, events: seq<Event>, i: nat)
    requires |nodes| == |events| + 1 && i < |nodes|
  {
    && i > 0 && !Turns(p, nodes, events, i - 1)
    && if events[i - 1].Restarted? then FrozeNobody(p, nodes, events, i - 1) else Dropped(p, nodes, events, i - 1)
  }

  /** Past genesis, holders resolve for this round and the next exactly unless the last
      boundary froze an empty committee and the node has restarted since. */
  lemma HoldersResolveIff(p: Params, nodes: seq<Node>, events: seq<Event>, i: nat)
    requires IsRun(p, nodes, events) && i < |nodes| && 0 < nodes[i].live.epoch && nodes[i].live.cursor < MAX_U64
    ensures var c := nodes[i].live;
            && (HoldersFor(c, CommitEpoch(p, c.cursor)).Some? <==> !Dropped(p, nodes, events, i))
            && (HoldersFor(c, CommitEpoch(p, c.cursor + 1)).Some? <==> !Dropped(p, nodes, events, i))
  {
    hide *;
    ClockIsConsistent(p, nodes, events, i);
    DroppedIff(p, nodes, events, i);
  }

  lemma {:induction false} DroppedIff(p: Params, nodes: seq<Node>, events: seq<Event>, i: nat)
    requires IsRun(p, nodes, events) && i < |nodes|
    ensures nodes[i].live.epoch > 0 ==>
              && (nodes[i].live.holders.None? <==> Dropped(p, nodes, events, i))
              && (nodes[i].durable.holders.None? <==> FrozeNobody(p, nodes, events, i))
  {
    hide Consistent, CommitEpoch, IsBoundary;
    if i > 0 {
      DroppedIff(p, nodes, events, i - 1);
      ClockIsConsistent(p, nodes, events, i - 1);
      assert Step(p, nodes[i - 1], events[i - 1], nodes[i - 1 + 1]);
      SameEpochOnDisk(p, nodes[i - 1]);
    }
  }

  lemma SameEpochOnDisk(p: Params, n: Node)
    requires Consistent(p, n)
    ensures n.durable.epoch == n.live.epoch
    ensures n.live.epoch > 0 ==> n.durable.holders == Kept(n.live.holders)
  {
  }

  /** As long as every boundary freezes somebody, no restart loses the committee. */
  lemma {:induction false} NonEmptyIsKept(p: Params, nodes: seq<Node>, events: seq<Event>, i: nat)
    requires IsRun(p, nodes, events) && i < |nodes|
    requires forall j :: 0 <= j < i && Turns(p, nodes, events, j) ==> events[j].frozen != []
    ensures !FrozeNobody(p, nodes, events, i) && !Dropped(p, nodes, events, i)
  {
    hide IsRun, Turns;
    if i > 0 { NonEmptyIsKept(p, nodes, events, i - 1); }
  }

  /** A boundary that removes the last validator, then a restart: the epoch has begun and
      nobody answers for it, where before the restart an empty committee did. */
  lemma EmptyCommitteeIsDropped(v: Stake.Validator)
    ensures var p := Params(1, 0, 0, 0);
            var events := [Registered([v], 1), Decided([v], [v]), Decided([v], []), Restarted];
            var at := (cursor: u64, epoch: u64, hs: Option<Holders>, prev: Option<Holders>, next: Option<Holders>) =>
              Clock(cursor, epoch, hs, prev, next, false, 0);
            var begun, turned := at(1, 0, Some([v]), None, None), at(2, 1, Some([]), Some([v]), Some([]));
            var reread := at(2, 1, None, Some([v]), None);
            var nodes := [Node(GENESIS, GENESIS, false), Node(at(0, 0, Some([v]), None, None), GENESIS, true),
                          Node(begun, begun, false), Node(turned, reread, false), Node(reread, reread, false)];
            && IsRun(p, nodes, events) && Dropped(p, nodes, events, 4)
            && HoldersFor(nodes[3].live, 1) == Some([]) && HoldersFor(nodes[4].live, 1) == None
  {
    assert IsBoundary(Params(1, 0, 0, 0), 1);
  }

  /** Rounds up to the one being decided keep their regime through any step; a round once
      strict is strict for good. */
  lemma StepKeepsRegime(p: Params, n: Node, e: Event, n': Node, round: nat)
    requires Consistent(p, n) && Step(p, n, e, n') && !e.Restarted?
    ensures round <= n.live.cursor ==> Relaxed(p, n'.live, round) == Relaxed(p, n.live, round)
    ensures !Relaxed(p, n.live, round) ==> !Relaxed(p, n'.live, round)
  {
    hide CommitEpoch;
  }

  /** A restart goes back to the last decision: no round before it is reclassified. */
  lemma RestartKeepsRegime(p: Params, n: Node, round: nat)
    requires Consistent(p, n) && round < n.live.cursor && RegimeAt(p, n)
    ensures Relaxed(p, n.durable, round) == Relaxed(p, n.live, round)
  {
  }

  /** Live and persisted clocks agree on every round already decided. */
  ghost predicate RegimeAt(p: Params, n: Node)
  {
    forall r: nat :: r <= n.live.cursor ==> Relaxed(p, n.durable, r) == Relaxed(p, n.live, r)
  }

  lemma StepKeepsRegimeAt(p: Params, n: Node, e: Event, n': Node)
    requires Consistent(p, n) && RegimeAt(p, n) && Step(p, n, e, n')
    ensures RegimeAt(p, n')
  {
    match e
    case Registered(frozen, staked) =>
      forall r: nat | r <= n'.live.cursor ensures Relaxed(p, n'.durable, r) == Relaxed(p, n'.live, r) {
        StepKeepsRegime(p, n, e, n', r);
      }
    case Decided(liveSet, frozen) =>
      AdvancedRegime(p, n, liveSet, frozen);
    case Restarted =>
  }

  lemma AdvancedRegime(p: Params, n: Node, liveSet: Holders, frozen: Holders)
    requires Consistent(p, n) && n.live.cursor < MAX_U64 && n.live.epoch < MAX_U64
    ensures RegimeAt(p, Advance(p, n, liveSet, frozen))
  {
    hide CommitEpoch;
  }

  /** Over every run: the regime a round was decided under is the regime it keeps, whenever
      the latch fires and however often the node restarts. */
  lemma {:induction false} RegimeIsFinal(p: Params, nodes: seq<Node>, events: seq<Event>, i: nat, j: nat, round: nat)
    requires IsRun(p, nodes, events) && i <= j < |nodes| && round < nodes[i].live.cursor
    ensures round < nodes[j].live.cursor && RegimeAt(p, nodes[j])
    ensures Relaxed(p, nodes[j].live, round) == Relaxed(p, nodes[i].live, round)
    decreases j
  {
    hide Step, Consistent, Relaxed, RegimeAt, CommitEpoch;
    RegimeThroughout(p, nodes, events, j);
    if i < j {
      RegimeIsFinal(p, nodes, events, i, j - 1, round);
      RegimeThroughout(p, nodes, events, j - 1);
      ClockIsConsistent(p, nodes, events, j - 1);
      assert Step(p, nodes[j - 1], events[j - 1], nodes[j - 1 + 1]);
      RegimeStep(p, nodes[j - 1], events[j - 1], nodes[j], round);
    }
  }

  lemma RegimeStep(p: Params, n: Node, e: Event, n': Node, round: nat)
    requires Consistent(p, n) && RegimeAt(p, n) && Step(p, n, e, n') && round < n.live.cursor
    ensures round < n'.live.cursor && Relaxed(p, n'.live, round) == Relaxed(p, n.live, round)
  {
    if e.Restarted? { RestartKeepsRegime(p, n, round); } else { StepKeepsRegime(p, n, e, n', round); }
  }

  lemma {:induction false} RegimeThroughout(p: Params, nodes: seq<Node>, events: seq<Event>, i: nat)
    requires IsRun(p, nodes, events) && i < |nodes|
    ensures RegimeAt(p, nodes[i])
  {
    hide Step, Consistent, Relaxed;
    if i > 0 {
      RegimeThroughout(p, nodes, events, i - 1);
      ClockIsConsistent(p, nodes, events, i - 1);
      assert Step(p, nodes[i - 1], events[i - 1], nodes[i - 1 + 1]);
      StepKeepsRegimeAt(p, nodes[i - 1], events[i - 1], nodes[i]);
    }
  }

  lemma StepKeepsHolders(p: Params, n: Node, e: Event, n': Node, epoch: nat)
    requires Consistent(p, n) && Step(p, n, e, n')
    requires 0 < epoch <= n.live.epoch && HoldersFor(n'.live, epoch).Some?
    ensures n.live.epoch <= n'.live.epoch
    ensures HoldersFor(n'.live, epoch) == HoldersFor(n.live, epoch)
         || (Closes(p, n, e, epoch) && HoldersFor(n'.live, epoch) == Some(e.liveSet))
  {
    hide CommitEpoch, IsBoundary;
  }

  /** The boundary that ends `epoch` finds no snapshot of it in force. */
  ghost predicate Closes(p: Params, n: Node, e: Event, epoch: nat)
  {
    e.Decided? && IsBoundary(p, n.live.cursor) && n.live.epoch == epoch && n.live.holders.None?
  }

  /** Over every run: the committee that answers for an epoch once it has begun is the one
      that answers for it as long as any does, through its grace window and restarts. The
      one exception is an epoch that closes after its committee was dropped, for which the
      live set of that boundary answers. */
  lemma {:induction false} HoldersAreFinal(p: Params, nodes: seq<Node>, events: seq<Event>, i: nat, j: nat, epoch: nat)
    requires IsRun(p, nodes, events) && i <= j < |nodes|
    requires 0 < epoch <= nodes[i].live.epoch && HoldersFor(nodes[j].live, epoch).Some?
    ensures HoldersFor(nodes[i].live, epoch) == HoldersFor(nodes[j].live, epoch)
         || exists m :: i <= m < j && Closes(p, nodes[m], events[m], epoch) && Dropped(p, nodes, events, m)
                        && HoldersFor(nodes[j].live, epoch) == Some(events[m].liveSet)
    decreases j
  {
    hide Step, Consistent, HoldersFor, CommitEpoch, Dropped;
    if i < j {
      EpochOnlyGrows(p, nodes, events, i, j - 1);
      ClockIsConsistent(p, nodes, events, j - 1);
      assert Step(p, nodes[j - 1], events[j - 1], nodes[j - 1 + 1]);
      StepKeepsHolders(p, nodes[j - 1], events[j - 1], nodes[j], epoch);
      DroppedIff(p, nodes, events, j - 1);
      if HoldersFor(nodes[j - 1].live, epoch).Some? { HoldersAreFinal(p, nodes, events, i, j - 1, epoch); }
    }
  }

  lemma {:induction false} EpochOnlyGrows(p: Params, nodes: seq<Node>, events: seq<Event>, i: nat, j: nat)
    requires IsRun(p, nodes, events) && i <= j < |nodes|
    ensures nodes[i].live.epoch <= nodes[j].live.epoch
    decreases j
  {
    hide Consistent, Step, CommitEpoch;
    if i < j {
      EpochOnlyGrows(p, nodes, events, i, j - 1);
      ClockIsConsistent(p, nodes, events, j - 1);
      assert Step(p, nodes[j - 1], events[j - 1], nodes[j - 1 + 1]);
      EpochStep(p, nodes[j - 1], events[j - 1], nodes[j]);
    }
  }

  lemma EpochStep(p: Params, n: Node, e: Event, n': Node)
    requires Consistent(p, n) && Step(p, n, e, n')
    ensures n.live.epoch <= n'.live.epoch
  {
    hide CommitEpoch, IsBoundary;
  }

  // ---- In place ---------------------------------------------------------------------------------

  class CommitClock {
    const params: Params
    var cursor: u64
    var epoch: u64
    var holders: Option<Holders>
    var prev: Option<Holders>
    var next: Option<Holders>
    var latched: bool
    var strictStart: u64
    var dirty: bool
    var durable: Clock

    constructor (params: Params)
      ensures this.params == params && State() == Node(GENESIS, GENESIS, false) && Consistent(params, State())
    {
      this.params := params;
      cursor, epoch, holders, prev, next, latched, strictStart := 0, 0, None, None, None, false, 0;
      dirty, durable := false, GENESIS;
    }

    function Now(): Clock
      reads this
    {
      Clock(cursor, epoch, holders, prev, next, latched, strictStart)
    }

    ghost function State(): Node
      reads this
    {
      Node(Now(), durable, dirty)
    }

    method LatchStrictRegime(atRound: u64)
      requires atRound < MAX_U64
      modifies `latched, `strictStart, `dirty
      ensures Now() == Latch(params, old(Now()), atRound)
      ensures dirty == (old(dirty) || !old(latched))
      ensures old(Consistent(params, State())) && params.minValidators > 0 ==> Consistent(params, State())
    {
      if latched { return; }
      var start := (atRound + params.grace + params.buffer) % WORD;
      if start < atRound + 1 { start := atRound + 1; }
      strictStart := start;
      latched := true;
      dirty := true;
    }

    /** recordCommittedMember's tail: refreeze the genesis snapshot and arm the latch. */
    method RecordMember(frozen: Holders, staked: nat)
      requires cursor < MAX_U64
      modifies `holders, `latched, `strictStart, `dirty
      ensures State() == old(State()).(live := Refreeze(params, old(Now()), frozen, staked), dirty := true)
      ensures old(Consistent(params, State())) ==> Consistent(params, State())
    {
      ghost var event := Registered(frozen, staked);
      ghost var after := State().(live := Refreeze(params, Now(), frozen, staked), dirty := true);
      if Consistent(params, State()) { StepConsistent(params, State(), event, after); }
      hide Consistent;
      dirty := true;
      if latched { return; }
      if epoch == 0 { holders := Some(frozen); }
      if params.minValidators > 0 && staked >= params.minValidators { LatchStrictRegime(cursor); }
    }

    method AdvanceCommitCursor(liveSet: Holders, frozen: Holders)
      requires cursor < MAX_U64 && epoch < MAX_U64
      modifies this
      ensures State() == Advance(params, old(State()), liveSet, frozen)
      ensures old(Consistent(params, State())) ==> Consistent(params, State())
    {
      if Consistent(params, State()) {
        StepConsistent(params, State(), Decided(liveSet, frozen), Advance(params, State(), liveSet, frozen));
      }
      hide Consistent;
      var round := cursor;
      cursor := round + 1;
      if IsBoundary(params, round) {
        if holders.Some? { prev := holders; } else { prev := Some(liveSet); }
        holders := Some(frozen);
        next := holders;
        epoch := epoch + 1;
        durable := Stored(Now());
        dirty := false;
        return;
      }
      if dirty {
        durable := Stored(Now());
        dirty := false;
        return;
      }
      durable := durable.(cursor := cursor);
    }

    method Restart()
      modifies this
      ensures State() == Node(old(durable), old(durable), false)
      ensures old(Consistent(params, State())) ==> Consistent(params, State())
    {
      if Consistent(params, State()) { StepConsistent(params, State(), Restarted, Node(durable, durable, false)); }
      hide Consistent;
      cursor, epoch := durable.cursor, durable.epoch;
      holders, prev, next := durable.holders, durable.prev, durable.next;
      latched, strictStart := durable.latched, durable.strictStart;
      dirty := false;
    }
  }
}
