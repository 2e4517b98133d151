# BluePods: a verified model of the consensus core and the verifiable index

This project models the parts of BluePods that every node must compute identically, and
proves what they guarantee. The anchor rule decides each DAG round and orders the committed
log. Declared operations reshape the object forest and the domain registry. The sparse
Merkle index answers with proofs. The ledger pays and settles epochs. The commit clock turns
rounds into epochs. Around them sit vertex arrival, batched proof verification, placement of
objects on validators, and the bytes a sync snapshot carries.

Where the Go code is a pure computation the model is functions and lemmas. Where it updates
fields in place the model is a class whose methods are proved equal to a specification
function, and the lemmas are about that function.

| file | models |
|---|---|
| `Common`, `Sums` | identifiers, 64-bit saturating arithmetic, sums |
| `Stake` | capped voting weights and the strict quorum |
| `Dag`, `VertexStore` | causal history, the vertex store and its walk |
| `Anchor`, `AnchorNode` | the anchor rule, as a definition and as it runs |
| `AnchorSafety`, `Divergence` | what two views of one DAG may decide |
| `Progress` | when a store decides a round at all |
| `CommitLog`, `CommitLoop` | the committed log over whole runs, and the commit loop |
| `Recovery` | crashes inside a round, and what a restart gets back |
| `Merkle`, `MerkleOracle`, `MerkleTree` | the sparse Merkle tree: its meaning, computed from scratch, and incrementally |
| `Index`, `IndexTrees` | the hierarchy, domain and validator trees, history of roots |
| `Objects`, `Domains` | the object tracker and the domain registry |
| `Staged`, `StagedSafety`, `Authority`, `Effects`, `Ops` | declared operations: rehearsal, authority, what they do |
| `Versions` | version checks and bumps of the objects a transaction names |
| `Ledger`, `Rewards`, `Settlement`, `Bank` | tokens, rewards, epoch settlement |
| `Outcomes`, `Proportions`, `Positions` | what each ledger operation does to each account, who gets how much, positions over runs |
| `Clock` | cursor, epoch, holder snapshots, strict latch, persistence |
| `Arrival` | the pending buffer and its retry loop |
| `Pool`, `Proofs` | the worker pool, the two-phase batch, the verdict cursor |
| `Rendezvous` | object placement and attestation quorums |
| `Wire`, `Snapshot` | proof and snapshot encodings |

## Modelling choices

- A 32-byte identifier is a natural number (its big-endian value), so byte order is number
  order. Hash digests in the index are terms of a free algebra, so two digests are equal
  exactly when they were built alike. Signatures are a given predicate on checks.
- Pebble tables are maps. FlatBuffers records are datatypes.
- 64-bit arithmetic is written out: saturating sums and products, wrapping sums where the
  code wraps, 32-bit child counters modulo 2^32.
- Rounds and epochs handed to the anchor rule are naturals. The holder snapshots, designated
  producers and regime it reads are a function of the decisions made so far, since committed
  history makes them and a boundary replaces them. Each pass of the commit loop reads the
  context of its own decision list.
- Agreement lemmas keep their hypotheses explicit: parents sit one round down, stores are
  causally closed, and twice the total stake fits in 64 bits. Every vertex cites a stake quorum
  of the round below, a rule producers enforce and receivers do not.
- The exclusion and carry lemmas of `AnchorSafety` allow equivocating stake below one third.
  `IndirectAgreement`, `DecisionsDifferIff` and the run lemmas `TicksAgree`, `RunsAgreeIff`,
  `DecisionsComparable` and `LogsAgree` assume a strict regime and no equivocation from the
  round being decided up to the citers of the anchor it is resolved through, and no further.
  The run lemmas ask this only of the rounds a run decides, so a run that starts after the
  relaxed bootstrap rounds is covered.
- A persisted holder snapshot without members reads back as absent, as the loader has it.
- `Recovery` keeps one store throughout. A batch does not depend on what else is stored, so it
  may be read as the whole DAG.
- Governed rates are at most one hundred percent: burn, refund and commission in basis
  points, restake in per mille.

## What does not hold

Eleven properties one would expect are false of the code. Each has a concrete case and the
exact condition.

- Two honest nodes at the same committed prefix can decide a round differently.
  `Divergence.CertifiedYetSkipped` and `Divergence.BlamedYetCommitted` are four-validator
  DAGs without equivocation. `AnchorSafety.DecisionsDifferIff` says exactly when it happens,
  in terms of what each store holds, and `CommitLog.RunsAgreeIff` carries that to whole runs.
- The saturating quorum test is not the two-thirds test: `Stake.SaturatedQuorumMisfires` and
  `Stake.QuorumTestExactIff`.
- The batch verifier's comments promise the error of the sequential loop.
  `Proofs.DeferringReportsTheRefusal` is a case where it is another.
  `Proofs.DeferringKeepsVerdict` shows the verdict is the same and says, on the proofs
  themselves, exactly when the reported error is not.
- The reward shares of an epoch can exceed its pool. `Settlement.SharesFitPoolIff` says
  exactly when they fit. `Settlement.SaturatedSettlementInflates` is a sound ledger whose
  settlement carries 2^64 - 1 units into the open epoch.
- Applying a synced regime does not override every stale local key, as the comment on
  `WithSyncedRegimeState` says it does. `Snapshot.RegimeRoundTrip` says exactly when the joiner
  holds the exporter's regime, and `Snapshot.StaleBucketSurvives` is a bucket that stays.
- A delegator's positions need not add up to the delegated total, since delegating again
  overwrites the first position. `Ledger.DelegateStrands` says exactly when and by how much,
  `Positions.StrandedOverRuns` carries it to whole runs, and `Ledger.RedelegationLosesThree` is
  a case.
- A version of an object can be written twice. `Versions.ReopenedIff` says exactly which steps
  make a passed version writable again, `Versions.OneWriterPerVersion` that nothing else does,
  and `Versions.DeletionReopensVersion` is a run through a deletion.
- A restart can lose the committee of an epoch that has begun. `Clock.HoldersResolveIff` says
  exactly when, and `Clock.EmptyCommitteeIsDropped` is a run.
- The comment on `advanceCommitCursor` calls deciding a round again after a crash idempotent.
  It is for what is written vertex by vertex (`Recovery.DiskSurvives`). For fee buckets,
  liveness, registrations and the live validators it is exactly when nothing of a round had
  been applied at any crash (`Recovery.RegimeSurvivesIff`). `Recovery.CrashLosesRegime` is a
  run that loses them.
- Bonding by a jailed validator takes tokens out of the accounted supply:
  `Ledger.BondConserves`, `Ledger.UnbondConserves` and `Ledger.UndelegateConserves` say that it
  is exactly the jailed ones, and `Ledger.JailedBondFallsShort` is a case.
- So does a burned fee share: `Ledger.ChargeConserves` and `Ledger.BurnedChargeFallsShort`.

## Model

| member | source | states |
|---|---|---|
| Common.SafeMul | internal/consensus/fees.go:80-91 | the split 128-bit product is the exact product when it fits and the maximum otherwise |
| Common.SafeAdd | internal/consensus/fees.go:94-101 | the wrap test gives the exact sum when it fits and the maximum otherwise |
| Stake.EffectiveStake | internal/consensus/stake.go:5-11 | jailed stake is zero, otherwise self plus delegated, the maximum where that overflows |
| Stake.CappedWeight | internal/consensus/stake.go:27-42 | capping never raises a weight and never takes it below an equal share |
| Stake.CapIsTight | internal/consensus/stake.go:27-42 | no weight is above both ceilings, and none is cut below the larger one |
| Stake.BallotsAreCapped | internal/consensus/stake.go:64-83 | every vote of a snapshot is the whole stake or the larger ceiling, to the unit |
| Stake.WhaleIsCapped | internal/consensus/stake.go:27-54 | a member with seventy of a hundred units and a cap of three tenths is no quorum alone |
| Stake.CappedStakeOf | internal/consensus/stake.go:64-83 | the two accumulated sums are the clamped exact weights of the producers and of the snapshot |
| Stake.QuorumTestExactIff | internal/consensus/stake.go:48-54 | the saturating test is the two-thirds test on exactly the inputs outside one band |
| Stake.StrictQuorumIff | internal/consensus/stake.go:48-54 | where the comparison is exact a strict quorum is two thirds of a positive total |
| Stake.RuledOutIff | internal/consensus/anchor_decision.go:505-514 | and it is ruled out exactly when those left fall short of two thirds |
| Stake.SaturatedQuorumMisfires | internal/consensus/stake.go:48-54 | a point of that band: half the stake passes for two thirds |
| Stake.WeightInclusionExclusion | internal/consensus/stake.go:64-83 | capped weight is additive over sets of producers |
| Stake.QuorumIntersection | internal/consensus/stake.go:48-83 | two strict quorums share a member outside any set below one third |
| Stake.RuledOutExcludesQuorum | internal/consensus/anchor_decision.go:505-514 | once non-supporters rule a quorum out, no disjoint set reaches it |
| VertexStore.Store.Add | internal/consensus/store.go:87-114 | a new vertex is stored and indexed once, a known one changes nothing |
| VertexStore.Store.MarkCommitted | internal/consensus/store_committed.go:36-41 | the committed set grows by that vertex |
| VertexStore.Store.SetCommitFloor | internal/consensus/store_committed.go:66-74 | the floor rises to the round or stays |
| VertexStore.Store.CollectCausal | internal/consensus/anchor.go:86-112 | the breadth-first walk succeeds exactly when no needed ancestor is absent, and then lists the uncommitted history once each |
| VertexStore.Store.CausalBatch | internal/consensus/anchor.go:58-80 | the batch is that history in round-then-hash order |
| VertexStore.Store.MissingAncestors | internal/consensus/anchor.go:123-152 | exactly the absent uncommitted vertices the walk meets |
| VertexStore.BatchUnique | internal/consensus/anchor.go:58-80 | equal histories give identical batches whatever the arrival order |
| VertexStore.BatchRises | internal/consensus/anchor.go:58-80 | a batch goes up round by round, and by rising hash within a round |
| Dag.HistoryIsShared | internal/consensus/anchor.go:86-112 | an anchor's history depends on the committed set and floor only, not on what else is stored |
| Dag.ClosedIsComplete | internal/consensus/anchor.go:86-112 | in a causally closed store the walk never meets a gap |
| Anchor.ScanResolver | internal/consensus/anchor_decision.go:74-102 | a decided scan rests on the first later certified round, all rounds before it being blamed or safely impossible |
| Anchor.CertifiedMeans | internal/consensus/anchor_decision.go:207-219 | a certified vertex is a stored vertex of the designated producer with certifying supporters |
| AnchorNode.Node.CitationsByProducer | internal/consensus/anchor_decision.go:267-287 | per next-round producer, exactly the candidates any of its vertices cites |
| AnchorNode.Node.TallyCitations | internal/consensus/anchor_decision.go:226-246 | supporters of each candidate, and the producers citing none |
| AnchorNode.Node.VerdictFromTally | internal/consensus/anchor_decision.go:309-321 | the tallied verdict is the defined verdict, lowest certified hash first |
| AnchorNode.Node.DirectAnchorVerdict | internal/consensus/anchor_decision.go:207-219 | the computed verdict is the defined one |
| AnchorNode.Node.SilentHolders | internal/consensus/anchor_decision.go:481-497 | exactly the holders without a vertex in the silence span |
| AnchorNode.Node.DeadDesignatedProducer | internal/consensus/anchor_decision.go:376-392 | the computed test is the definition |
| AnchorNode.Node.CertificationRuledOut | internal/consensus/anchor_decision.go:505-514 | the computed test is the definition |
| AnchorNode.Node.CertImpossible | internal/consensus/anchor_decision.go:430-464 | both answers, ruled out and by blame, are the defined ones |
| AnchorNode.Node.AdjacentAgrees | internal/consensus/anchor_decision.go:137-168 | the computed test is the definition |
| AnchorNode.Node.ScanPastUndecided | internal/consensus/anchor_decision.go:111-122 | the computed test is the definition, which `Progress.PassesIff` reads off the store |
| AnchorNode.Node.SupporterStillPossible | internal/consensus/anchor_decision.go:601-617 | the computed test is the definition |
| AnchorNode.Node.DecideMembership | internal/consensus/anchor_decision.go:622-635 | commits the lowest candidate in the history, else skips |
| AnchorNode.Node.ResolveByAnchor | internal/consensus/anchor_decision.go:556-590 | the indirect resolution is the defined one |
| AnchorNode.Node.DecideRound | internal/consensus/anchor_decision.go:74-102 | the whole scan returns the defined status of the round |
| AnchorNode.Node.GetByRoundProducer | internal/consensus/store.go:155-171 | the stored vertices of one producer at one round, ascending |
| AnchorSafety.SupportAndBlameEquivocates | internal/consensus/anchor_decision.go:226-246 | a producer that supports in one view and blames in another has signed twice |
| AnchorSafety.CertifyBlameExclusive | internal/consensus/anchor_decision.go:309-345 | no two views strictly certify and strictly blame one round while equivocating stake is below one third |
| AnchorSafety.BlameRuledOutIsFinal | internal/consensus/anchor_decision.go:430-464 | a round ruled out by blame is certified in no view, however much more it holds |
| AnchorSafety.Carry | internal/consensus/anchor_decision.go:207-246 | a strictly certified vertex is in the history of every vertex two or more rounds up |
| AnchorSafety.CarryTwoUp | internal/consensus/dag.go:1353-1385 | quorum parents two rounds up must cite a supporter |
| AnchorSafety.CertifiedRoundOutcome | internal/consensus/anchor_decision.go:556-635 | once certified somewhere, every view commits that vertex, waits, or skips, and skips exactly when its adjacent anchor omits it |
| AnchorSafety.CertifiedStopsTheScan | internal/consensus/anchor_decision.go:111-168 | a round certified in one view is scanned past by none |
| AnchorSafety.IndirectAgreement | internal/consensus/anchor_decision.go:556-590 | two views that resolve an undecided round indirectly resolve it alike |
| AnchorSafety.CommitsIffCarried | internal/consensus/anchor_decision.go:556-635 | an undecided round that resolves commits exactly when the first certified round above it carries a candidate in its history |
| AnchorSafety.DecisionsDifferIff | internal/consensus/anchor_decision.go:74-102 | two deciding nodes differ on a round exactly in two shapes of their stores: one certifies what the other's adjacent anchor omits, or one blames what the other's resolving anchor carries |
| Progress.SilentIff | internal/consensus/anchor_decision.go:481-497 | a holder is silent exactly when the store reaches twenty rounds past the frontier without a vertex of it |
| Progress.PassesIff | internal/consensus/anchor_decision.go:111-168 | the scan passes an undecided round exactly when blame puts it out of reach, or silence does and the adjacent round comes out the same either way |
| Progress.SettlesIff | internal/consensus/anchor_decision.go:556-635 | a later certified vertex settles a round exactly when its history is whole and carries a candidate, or there is none to wait for |
| Progress.DecidedIff | internal/consensus/anchor_decision.go:74-102 | a node stops waiting on a round exactly when it is certified or blamed directly, or a later certified vertex settles it with nothing standing between |
| Progress.BlameDecides | internal/consensus/anchor_decision.go:74-122 | blame alone unblocks a strict round, the adjacent round included, and the decision is then what the certified vertex carries |
| Progress.RelaxedCertifiesIff | internal/consensus/anchor_decision.go:309-345 | in the bootstrap regime one member's citation certifies |
| Progress.StrictCertifiesIff | internal/consensus/anchor_decision.go:309-345 | after it only two thirds of the capped weight do |
| Progress.CertifiedIsLowest | internal/consensus/anchor_decision.go:309-321 | of several certified vertices the lowest hash is taken |
| Progress.CarriedIsLowest | internal/consensus/anchor_decision.go:622-635 | of several carried candidates the lowest hash is committed |
| Divergence.CertifiedYetSkipped | internal/consensus/anchor_decision.go:83-84 | a concrete DAG where one node commits a certified vertex and another skips its round |
| Divergence.BlamedYetCommitted | internal/consensus/anchor_decision.go:622-635 | a concrete DAG where one node skips a blamed round and another commits it |
| CommitLog.RunKeepsInv | internal/consensus/commit.go:98-123 | every reachable state keeps the log duplicate-free, the committed set closed, and the cursor above both |
| CommitLog.LogIsLinearExtension | internal/consensus/commit.go:417-445 | over every run each vertex is logged at most once, after all its above-floor ancestors |
| CommitLog.LogIsReplay | internal/consensus/commit.go:335-348 | the log is what replaying the decisions over the whole DAG gives |
| CommitLog.SameDecisionsSameLog | internal/consensus/anchor.go:58-112 | nodes that decide alike from one point hold identical logs |
| CommitLog.TicksAgree | internal/consensus/commit.go:98-123 | two states at one committed point that both decide, decide alike exactly when neither is in a fork shape of the other |
| CommitLog.RunsAgreeIff | internal/consensus/commit.go:98-123 | two runs stay prefixes of each other throughout exactly when no two joint decisions are in a fork shape |
| CommitLog.DecisionsComparable | internal/consensus/commit.go:98-123 | over whole runs across committee changes, one decision list is a prefix of the other away from the fork shapes |
| CommitLog.LogsAgree | internal/consensus/commit.go:98-123 | over whole runs across committee changes, one log is a prefix of the other away from the fork shapes |
| CommitLoop.Committer.ApplyBatch | internal/consensus/commit.go:417-445 | the log grows by the batch and exactly its vertices become committed |
| CommitLoop.Committer.CommitNextRound | internal/consensus/commit.go:98-123 | one call is one tick of the model under the context of the decisions so far: decide, apply, advance, or leave everything as it was |
| Recovery.FlaggedHistory | internal/consensus/store_committed.go:45-50 | flagging a downward-closed set takes exactly it out of every history |
| Recovery.RestOfBatch | internal/consensus/anchor.go:58-112 | after a crash inside a batch, the rest of the batch is the batch of the rest |
| Recovery.ResumedRound | internal/consensus/commit.go:417-445 | deciding the round again ends exactly where deciding it at once would |
| Recovery.RedecidedRound | internal/consensus/anchor_decision.go:74-102 | a restarted node that sees nothing new decides the round for the same anchor, or skips it with the whole batch applied |
| Recovery.DiskSurvives | internal/consensus/commit.go:292-329 | over every run of crashes, what is written vertex by vertex is that of a node that never crashed |
| Recovery.RegimeAccounts | internal/consensus/commit.go:292-329 | every vertex on disk is in the saved regime or was lost to a crash |
| Recovery.RegimeSurvivesIff | internal/consensus/commit.go:292-329 | a restarted node holds the uncrashed regime at the same cursor exactly when no crash came after a vertex was applied and before its cursor was saved |
| Recovery.CrashLosesRegime | internal/consensus/commit.go:292-329 | a run where the registration a vertex carried is gone while the vertex stays committed |
| Merkle.RootCommitsToSet | internal/index/smt_oracle.go:51-62 | two entry sets have one root exactly when they are the same set, values included |
| Merkle.FoldPath | internal/index/proof.go:139-150 | climbing the siblings computes the fold from the root down |
| Merkle.Verify | internal/index/proof.go:93-134 | verification accepts exactly well-shaped proofs whose fold is the root |
| Merkle.ProofsAreSound | internal/index/proof.go:93-150 | any accepted proof, whoever made it, means the key maps to the value or has no entry |
| Merkle.ProofsAreComplete | internal/index/smt_oracle.go:68-85 | the generated proof of every key, present or absent, is accepted |
| MerkleOracle.SearchSplit | internal/index/smt_oracle.go:90-94 | bisection finds the first entry whose bit is set |
| MerkleOracle.OracleHashes | internal/index/smt_oracle.go:51-62 | over a sorted listing the recursion is the root of the entry set |
| MerkleOracle.OracleProves | internal/index/smt_oracle.go:68-85 | over a sorted listing the recursion generates the proof of the entry set |
| MerkleOracle.AnyListing | internal/index/smt_oracle.go:16-45 | however the entries were listed, sorting them gives the root, the proof, and an accepted proof of the entry set |
| MerkleTree.NodeHashIsSubtree | internal/index/smt_inc.go:122-134 | memoized hashing equals hashing from scratch and changes no entry |
| MerkleTree.InsertCorrect | internal/index/smt_inc.go:37-80 | insertion adds or overwrites exactly one entry and keeps every memo right |
| MerkleTree.DeleteCorrect | internal/index/smt_inc.go:85-115 | deletion removes exactly one entry, floats lone leaves up, and keeps every memo right |
| MerkleTree.TreePathIsPath | internal/index/proof.go:47-86 | the path read off the tree is the from-scratch path |
| MerkleTree.ProvePath | internal/index/proof.go:47-79 | the descending loop and reversal collect that path |
| MerkleTree.Smt.Insert | internal/index/smt.go:71-80 | the entry set is updated and the tree stays valid |
| MerkleTree.Smt.Delete | internal/index/smt.go:84-91 | the entry is removed; an absent key leaves tree and memos alone |
| MerkleTree.Smt.RootHash | internal/index/smt.go:104-106 | the incremental root is the root of the entries |
| MerkleTree.Smt.ProveKey | internal/index/proof.go:36-40 | the proof is the from-scratch one and is accepted |
| IndexModel.RootsCommitToTrees | internal/index/manager.go:159-169 | the combined roots are equal exactly when all trees are |
| IndexModel.DistinctSet | internal/index/query.go:201-211 | the duplicate test is exact, and then the list's length is the set's size |
| IndexModel.EnumerationIsComplete | internal/index/query.go:117-130 | a duplicate-free list with the proven subtree root is exactly the parent's children, and proven absence means none |
| IndexModel.EnumerationIsProvable | internal/index/hierarchy_trees.go:203-224 | every parent's enumeration has an accepted proof |
| IndexModel.AncestryIsSound | pkg/client/provedanswers.go:105-132 | a walk the client accepts is the whole real ancestry, for every bound at least its length: never invented, replaced or cut short |
| IndexModel.AncestryIsProvable | internal/index/query.go:135-169 | the walk a node serves is accepted exactly when the ancestry ends within the walk's bound |
| IndexModel.VerifyAncestry | pkg/client/provedanswers.go:105-132 | the client's loop accepts exactly the verified walks and returns their chain |
| IndexModel.RecordKeepsConsistent | internal/index/manager.go:187-238 | recording a round keeps history, order, window and frontier consistent |
| IndexModel.RetainedRootsAreFinal | internal/index/manager.go:187-260 | a retained root never changes and checkpoints are never dropped |
| IndexModel.WindowIsKept | internal/index/manager.go:187-238 | the last thousand recorded rounds are kept, and the round after a validator rebuild is a checkpoint |
| IndexModel.EventEffects | internal/index/manager.go:96-142 | each call moves one child, one name or the validators, and every other answer stays |
| IndexModel.RebuiltHistoryAgrees | internal/index/manager.go:250-286 | two histories that agree above a round keep agreeing on every later round both retain |
| IndexModel.RestartedManagerAgrees | internal/index/manager.go:96-286 | two managers with the same trees and frontier, fed the same calls, keep the same trees, frontier and later roots |
| IndexModel.BootedManagerAgrees | internal/consensus/indexer.go:122-159 | a node that boots over its persisted trees and records its last decided round cannot be told from one that never restarted |
| IndexTrees.BuildSubtree | internal/index/hierarchy_trees.go:177-184 | the subtree built by insertion has the root of the child set |
| IndexTrees.ChildrenSubtreeRoot | internal/index/query.go:201-211 | refuses a repeated identifier, otherwise the root of the listed set |
| IndexTrees.DropGrouped | internal/index/hierarchy_trees.go:146-158 | dropping a child from its set is grouping the remaining edges |
| IndexTrees.PutGrouped | internal/index/hierarchy_trees.go:131-140 | adding a child to its set is grouping the extended edges |
| IndexTrees.Hierarchy.SyncTop | internal/index/hierarchy_trees.go:162-171 | the top tree again holds exactly the root of every non-empty child set |
| IndexTrees.Hierarchy.AddChild | internal/index/hierarchy_trees.go:131-140 | one child is added and the top tree follows |
| IndexTrees.Hierarchy.RemoveChild | internal/index/hierarchy_trees.go:146-158 | one child is removed, an emptied parent disappears, and the top tree follows |
| IndexTrees.Hierarchy.SetEdge | internal/index/hierarchy_trees.go:244-251 | both trees describe the edge set with this one edge set or moved |
| IndexTrees.Hierarchy.RemoveEdge | internal/index/hierarchy_trees.go:254-260 | both trees describe the edge set without this edge |
| IndexTrees.Hierarchy.EdgeRoots | internal/index/hierarchy_trees.go:216-218 | both roots are those of one edge set |
| IndexTrees.Hierarchy.WalkEdges | internal/index/query.go:144-169 | the loop serves the specified walk, which a client accepts with the real chain when it ends within the bound |
| IndexTrees.IndexManager.Apply | internal/index/manager.go:96-126 | one incremental call is one step of the model |
| IndexTrees.IndexManager.CurrentRoots | internal/index/manager.go:150-169 | the roots are those of the whole state |
| IndexTrees.IndexManager.Rebuild | internal/index/manager.go:133-142 | the validator tree is replaced and the next recorded round is a checkpoint |
| IndexTrees.IndexManager.BuildFromState | internal/index/manager.go:269-286 | rebuilding from lists gives the same trees as the edits that led there |
| Objects.RulerIsUnique | internal/consensus/walk.go:16-33 | a bounded walk that succeeds returns the unbounded walk's key |
| Objects.MoveRules | internal/consensus/tracker.go:273-285 | after a move everything below follows and everything else keeps its key |
| Objects.MoveKeepsRooted | internal/consensus/walk.go:54-79 | a move the cycle check allows keeps every walk ending at a key |
| Objects.RemoveKeepsRooted | internal/consensus/tracker.go:330-338 | removing a childless object keeps every walk ending at a key |
| Objects.SetParentKeepsCounts | internal/consensus/tracker.go:273-325 | rebinding keeps every stored count exact modulo 2^32 |
| Objects.TrackKeepsCounts | internal/consensus/tracker.go:259-325 | tracking keeps every stored count exact modulo 2^32 |
| Objects.DeleteKeepsCounts | internal/consensus/tracker.go:330-338 | deletion keeps every stored count exact modulo 2^32 |
| Objects.ZeroCountIsChildless | internal/consensus/tracker.go:245-252 | below 2^32 objects a stored count is the true number of children |
| Objects.ChangeKeepsForest | internal/consensus/commit.go:866-889 | every allowed create, bump, reparent and delete keeps the rooted forest and its counts |
| Objects.ReachableIsForest | internal/consensus/tracker.go:259-338 | over every run no cycle, no dangling parent, and every count exact |
| Ops.ObjectTracker.AdjustChildCount | internal/consensus/tracker.go:310-325 | moves the counter of a tracked object parent, and nothing else |
| Ops.ObjectTracker.RebindChildCount | internal/consensus/tracker.go:293-303 | moves one count from the old parent to the new, none when the edge is the same |
| Ops.ObjectTracker.TrackObject | internal/consensus/tracker.go:259-268 | the new table is the specified one |
| Ops.ObjectTracker.SetParent | internal/consensus/tracker.go:273-285 | the new table is the specified one |
| Ops.ObjectTracker.DeleteObject | internal/consensus/tracker.go:330-338 | the new table is the specified one |
| Ops.ObjectTracker.ControllerOf | internal/consensus/walk.go:16-33 | the bounded loop is the bounded walk |
| Ops.ObjectTracker.WouldCycle | internal/consensus/walk.go:54-79 | the bounded loop is the bounded cycle test |
| Versions.UpdateEffect | internal/consensus/tracker.go:130-156 | an accepted transaction raises each version once per declared write and changes nothing else of any object |
| Versions.AcceptedIff | internal/consensus/tracker.go:59-125 | a transaction is accepted exactly when every object it reads or writes is at the version it names, and refused without effect otherwise |
| Versions.VersionDropsIff | internal/consensus/tracker.go:259-338 | a step lowers a version exactly when it deletes the object or tracks it lower |
| Versions.StaysPassedIff | internal/consensus/tracker.go:259-338 | a version passed stays passed exactly until the object is deleted or tracked at or below it |
| Versions.WritableIff | internal/consensus/tracker.go:59-156 | some run without a reset writes an object at a version exactly when it is not past it |
| Versions.ReopenedIff | internal/consensus/tracker.go:59-338 | a passed version becomes writable again exactly through a deletion or a tracking at or below it |
| Versions.OneWriterPerVersion | internal/consensus/tracker.go:59-338 | over every run of writes, moves, tracking and deletions, two accepted transactions write an object at one version only if a step between them reopened it |
| Versions.DeletionReopensVersion | internal/consensus/tracker.go:330-338 | a run that tracks, writes, names and deletes an object, after which its first version is written again |
| Versions.CheckRefs | internal/consensus/tracker.go:86-125 | the loop accepts exactly lists whose every reference is current or a domain reference |
| Versions.CheckAndBump | internal/consensus/tracker.go:59-156 | all versions are checked before any is bumped, as specified |
| Domains.NamespaceDecides | internal/consensus/domainops.go:285-345 | a well-formed name under an unreserved namespace contains the reserved label nowhere |
| Domains.LabelsSpell | internal/consensus/domainops.go:285-345 | a name is its labels joined by dots, and no label holds one |
| Domains.ValidNameIff | internal/consensus/domainops.go:285-345 | which names may be registered, letter by letter |
| Domains.DomainExpiry | internal/consensus/domainops.go:262-278 | a granted expiry is past the epoch and the old expiry and within the cap; `Domains.ExpiryIff` says which |
| Domains.ExpiryIff | internal/consensus/domainops.go:262-278 | a lease runs for exactly the term bought from the later of its expiry and now, refused exactly for a zero or too long a term |
| Domains.RenewalsAdd | internal/consensus/domainops.go:262-278 | renewing twice in one epoch is renewing once for both terms |
| Domains.SweepExpired | internal/consensus/domain_sweep.go:23-48 | exactly the names past their grace window go |
| Domains.ExpiredIff | internal/consensus/domain_sweep.go:23-48 | a name is swept exactly when the new epoch is past its expiry by more than the grace |
| Domains.SweepKeepsGood | internal/consensus/domain_sweep.go:23-48 | crossing a boundary with the sweep keeps the registry invariant for the new epoch |
| StagedSafety.CountIsRehearsed | internal/consensus/staged.go:211-218 | the overlay's child count is the count the tracker will store |
| StagedSafety.LeafIsRederived | internal/consensus/domainops.go:103-183 | the leaf application re-derives from the store is the validated one |
| StagedSafety.StepRehearsed | internal/consensus/staged.go:48-218 | one validated operation applies without a failing branch and ends in the overlay's state |
| StagedSafety.ListRehearsed | internal/consensus/ops.go:97-111 | so does every validated list |
| StagedSafety.HandlingIsAtomic | internal/consensus/ops.go:64-87 | a refused list changes nothing; an accepted one leaves exactly the overlay's edges, counts and leaves, and touches no version or deposit |
| Effects.ControlsIff | internal/consensus/walk.go:16-47 | the sender controls an object exactly when a path of at most 256 objects leads to its key |
| Effects.WouldCycleIff | internal/consensus/walk.go:54-79 | a move is refused as a cycle exactly when no such path avoids the moved object |
| Effects.ReparentAcceptedIff | internal/consensus/staged.go:67-89 | which reparents are accepted, on the wire fields |
| Effects.DeleteAcceptedIff | internal/consensus/staged.go:95-108 | which deletes are accepted |
| Effects.NameAcceptedIff | internal/consensus/staged_domain.go:16-142 | which domain operations are accepted, kind by kind |
| Effects.ListAcceptedIff | internal/consensus/ops.go:75-82 | a list is accepted exactly when each operation is against what the earlier ones staged |
| Effects.ObjectsEndUp | internal/consensus/ops.go:97-131 | after an accepted list an object is under the key or the object its last reparent names, gone after a delete, and otherwise where it was |
| Effects.NamesEndUp | internal/consensus/domainops.go:103-183 | after an accepted list a name is what the last operation on it says, every other field kept |
| Effects.RenewalHandled | internal/consensus/ops.go:64-111 | a renewal through the handler is accepted exactly when owned and affordable, and adds exactly its term |
| Authority.HandlingIsAuthorised | internal/consensus/ops.go:64-87 | a list moves or deletes only declared references its sender ruled at the start, leaves every other key's objects in place, and changes no name of another owner |
| Authority.NothingGained | internal/consensus/staged.go:67-176 | however a list reshapes the forest, its sender comes to rule nothing new |
| Authority.ChangedWasHeld | internal/consensus/staged.go:67-132 | whatever moved or went was the sender's at the start |
| Authority.LawfulLeaf | internal/consensus/staged_domain.go:41-129 | a written name was free or the sender's, and points only where it pointed or at an object the sender ruled at the start |
| Authority.TransactionKeepsGood | internal/consensus/staged_domain.go:41-170 | a transaction keeps the registry invariant |
| Authority.RegistryIsGood | internal/consensus/domainops.go:262-345 | over every run no reserved label, no zero owner, every lease within grace and within the cap |
| Ops.StagedView.GetParent | internal/consensus/staged.go:137-147 | reads the overlaid edge |
| Ops.StagedView.GetDomain | internal/consensus/staged_domain.go:182-197 | reads the overlaid leaf |
| Ops.StagedView.ControllerOf | internal/consensus/staged.go:152-169 | the loop is the bounded walk over overlaid edges |
| Ops.StagedView.WouldCycle | internal/consensus/staged.go:182-207 | the loop is the bounded cycle test over overlaid edges |
| Ops.StagedView.Controls | internal/consensus/staged.go:172-176 | exactly when the overlaid walk ends at the sender |
| Ops.StagedView.StageReparent | internal/consensus/staged.go:112-122 | the new overlay is the specified one |
| Ops.StagedView.StageDelete | internal/consensus/staged.go:126-132 | the new overlay is the specified one |
| Ops.StagedView.ValidateReparent | internal/consensus/staged.go:67-89 | accepts and stages exactly as specified, or leaves the overlay alone; `Effects.ReparentAcceptedIff` and `Effects.ObjectsEndUp` say what on the wire fields |
| Ops.StagedView.ValidateDelete | internal/consensus/staged.go:95-108 | accepts and stages exactly as specified, or leaves the overlay alone |
| Ops.StagedView.OwnedDomain | internal/consensus/staged_domain.go:147-154 | the overlaid leaf when the non-zero sender owns it |
| Ops.StagedView.OwnsDomainNamespace | internal/consensus/staged_domain.go:161-170 | a bare root, or an unexpired namespace the sender owns |
| Ops.StagedView.RegisteredLeaf | internal/consensus/staged_domain.go:41-67 | the leaf a registration may write, if any |
| Ops.StagedView.RewrittenLeaf | internal/consensus/staged_domain.go:72-129 | the leaf a renewal, repoint or transfer may write, if any |
| Ops.StagedView.ValidateDomainOp | internal/consensus/staged_domain.go:16-142 | accepts and stages exactly as specified, or leaves the overlay alone |
| Ops.StagedView.Validate | internal/consensus/staged.go:48-61 | one operation against the overlay, as specified |
| Ops.Executor.Apply | internal/consensus/ops.go:97-167 | one application step on the real stores, skipped where it cannot proceed |
| Ops.Executor.Rehearse | internal/consensus/ops.go:75-82 | accepts exactly the lists whose every operation validates in turn, changing no store |
| Ops.Executor.HandleDeclaredOps | internal/consensus/ops.go:64-111 | the handler computes the specified all-or-nothing outcome |
| Ledger.DebitMoves | internal/consensus/commit.go:1890-1909 | a strict debit lowers coin and counter by exactly the amount |
| Ledger.CreditMoves | internal/consensus/coins.go:192-218 | a credit lands exactly when the coin exists, raising coin and counter by the amount |
| Ledger.DeductMoves | internal/consensus/coins.go:162-188 | a fee debit takes the fee or the whole balance, and the counter follows |
| Ledger.Refund | internal/consensus/fees.go:310-315 | the refund never exceeds the deposit, even where the product wraps |
| Ledger.BondConserves | internal/consensus/commit.go:1666-1690 | a bond keeps the supply gap exactly when the validator is not jailed |
| Ledger.JailedBondFallsShort | internal/consensus/commit.go:1666-1690 | a sound ledger that a jailed validator's bond leaves short of the supply |
| Ledger.UnbondConserves | internal/consensus/commit.go:1696-1725 | an unbond keeps the supply gap exactly when the validator is not jailed |
| Ledger.DelegateConserves | internal/consensus/commit.go:1733-1754 | a delegation keeps the supply gap and every position funded |
| Ledger.UndelegateConserves | internal/consensus/commit.go:1761-1782 | a position's validator is always in the set, and undelegating keeps the gap exactly when it is not jailed |
| Ledger.DelegateStrands | internal/consensus/commit.go:1733-1754 | a delegation leaves exactly the position it overwrites out of every position, so totals agree exactly when there was none |
| Ledger.UndelegateStrands | internal/consensus/commit.go:1761-1782 | undelegating gives back the position and strands nothing |
| Ledger.RedelegationLosesThree | internal/consensus/commit.go:1733-1782 | a delegator who delegates three and then four gets four back |
| Ledger.ChargeConserves | internal/consensus/commit.go:1044-1111 | a charge keeps the supply gap exactly when no share is burned or the coin does not cover the fee |
| Ledger.BurnedChargeFallsShort | internal/consensus/commit.go:1044-1111 | a sound ledger that a half-burned charge leaves short of the supply |
| Ledger.PoolWithheldConserves | internal/consensus/commit.go:849-854 | pooling the withheld deposit keeps the supply gap |
| Ledger.LockConserves | internal/consensus/commit.go:1121-1135 | locking the withheld deposit in an object keeps the supply gap |
| Ledger.DeletionConserves | internal/consensus/commit.go:931-968 | refund and burn together are the deposit, with or without a gas coin |
| Outcomes.BondOutcome | internal/consensus/commit.go:1666-1690 | when a bond is accepted, and what moves from the coin into the stake |
| Outcomes.UnbondOutcome | internal/consensus/commit.go:1696-1725 | when an unbond is accepted, leaving nothing or at least the least stake |
| Outcomes.DelegateOutcome | internal/consensus/commit.go:1733-1754 | when a delegation is accepted, and the position and total it leaves |
| Outcomes.UndelegateOutcome | internal/consensus/commit.go:1761-1782 | when an undelegation is accepted, closing the position into the coin |
| Outcomes.ChargeOutcome | internal/consensus/commit.go:1044-1111 | which bucket, which coin and which withheld deposit a charge moves, covered or not |
| Outcomes.PoolOutcome | internal/consensus/commit.go:849-854 | pooling moves the whole withheld deposit into one bucket |
| Outcomes.DeletionOutcome | internal/consensus/commit.go:931-968 | refund into the gas coin and burn of the rest, or of all without a coin to pay |
| Outcomes.ValidatorReceives | internal/consensus/epoch.go:318-337 | how a reward divides between stake and coin |
| Outcomes.RemainderOutcome | internal/consensus/epoch.go:344-361 | the remainder reaches the top validator's coin whenever it names one that exists |
| Outcomes.NoWorkNoMint | internal/consensus/thermostat.go:47-72 | nothing is minted for an epoch nobody earned a share of |
| Outcomes.SeatIsPaid | internal/consensus/epoch.go:215-223 | every seat is paid its own share, to the unit |
| Outcomes.SettledSeatIsPaid | internal/consensus/epoch.go:149-168 | and so through the whole settlement |
| Outcomes.DepartsIff | internal/consensus/epoch.go:432-477 | who may leave: nobody delegates, and the stake is zero or has a coin to return to |
| Outcomes.RemovalsAreComplete | internal/consensus/epoch.go:384-419 | whoever may leave does, unless the churn limit was reached first |
| Rewards.SplitConserves | internal/consensus/delegation.go:65-96 | the validator's part and the payouts add up to the reward |
| Proportions.ShareIsTruncated | internal/consensus/delegation.go:86-96 | a share is the proportion of the pool truncated to a unit |
| Proportions.SplitIs | internal/consensus/delegation.go:65-81 | the payouts divide the reward less the own share and less the commission on the rest |
| Proportions.SplitFollowsCommission | internal/consensus/delegation.go:65-96 | together delegators get the rest less the commission, within the truncation |
| Proportions.CommissionEnds | internal/consensus/delegation.go:65-81 | without commission the validator keeps its share and at most a unit a delegator; at full commission no delegator is paid |
| Proportions.PayoutsFollowStake | internal/consensus/delegation.go:86-96 | each payout is the truncated part of the pot, and more stake is never less pay |
| Proportions.RefundIsTruncated | internal/consensus/fees.go:310-315 | the refund is that many basis points of the deposit |
| Proportions.BurnIsTruncated | internal/consensus/fees.go:280-290 | the burned share is that many basis points of the consumed fee |
| Proportions.IssuanceIsTruncated | internal/consensus/thermostat.go:121-123 | the issuance is that many millionths of the supply |
| Proportions.RatioIsTruncated | internal/consensus/thermostat.go:92-98 | the staking ratio is in thousandths of the supply |
| Proportions.WeightIsProduct | internal/consensus/thermostat.go:78-87 | a live validator weighs its stake times the rounds it produced |
| Rewards.SharesFit | internal/consensus/delegation.go:86-96 | truncated shares of weights never exceed their proportion of the pool |
| Rewards.DelegatorsPaid | internal/consensus/epoch.go:273-303 | every payout compounds into position and delegated total, and nothing else moves |
| Rewards.ValidatorPaid | internal/consensus/epoch.go:318-337 | restake and liquid part add up to the amount unless the reward coin is missing |
| Rewards.SharePaid | internal/consensus/epoch.go:236-242 | a share moves exactly its amount into stake and coins when the validator can be paid, never more |
| Rewards.SharesPaid | internal/consensus/epoch.go:215-223 | paying all shares moves at most their sum and touches only the paid validators |
| Settlement.DistributionConserves | internal/consensus/epoch.go:200-230 | while the pool suffices for the shares, every unit of it is credited or carried forward, and all is credited when the top validator has a coin |
| Settlement.TopIsGreatest | internal/consensus/epoch.go:248-264 | the remainder goes to the greatest weight, lowest key on a tie |
| Settlement.TopIgnoresOrder | internal/consensus/epoch.go:248-264 | two enumerations of one set pick the same recipient |
| Settlement.SharesFitPoolIff | internal/consensus/epoch.go:208-223 | the shares fit the pool exactly when the total weight does not saturate or the seats that would take a unit are no more than the pool's units |
| Settlement.WhalesAreOverpaid | internal/consensus/epoch.go:200-230 | two units are credited out of a one-unit pool and the leftover wraps to the greatest word |
| Settlement.SaturatedSettlementInflates | internal/consensus/epoch.go:149-168 | a sound ledger whose settlement carries 2^64 - 1 units into the open epoch |
| Settlement.RateIsBounded | internal/consensus/thermostat.go:104-136 | over every history the rate stays between floor and ceiling, moves by at most a step, toward the band, and holds inside it |
| Settlement.StepIsWhole | internal/consensus/thermostat.go:104-136 | outside the band the rate moves a whole step, short of it only at floor or ceiling |
| Settlement.SettleConserves | internal/consensus/epoch.go:149-168 | while the pool suffices, settlement raises supply by the issuance, drops the settled bucket, and keeps the supply gap |
| Settlement.DepartConserves | internal/consensus/epoch.go:432-489 | a departure returns exactly the self-stake that leaves the bonded total |
| Settlement.RemovalsConserve | internal/consensus/epoch.go:384-419 | boundary removals keep the gap, respect the churn limit, and never remove a validator with delegated stake |
| Settlement.FlowConserves | internal/consensus/commit.go:931-968 | every admissible flow keeps the supply gap |
| Settlement.SupplyIsConserved | internal/consensus/commit.go:475-486 | over every run, coins, bonds, deposits, fees in flight and withheld deposit never drift from the supply |
| Positions.CompoundStrands | internal/consensus/epoch.go:288-303 | a compounded reward raises position and delegated total alike |
| Positions.SettleStrands | internal/consensus/epoch.go:149-168 | a settlement leaves every delegated total as far from its positions as it was |
| Positions.RemovalsStrand | internal/consensus/epoch.go:384-419 | so do boundary removals |
| Positions.FlowStrands | internal/consensus/commit.go:1733-1782 | every flow strands exactly the position it overwrites |
| Positions.StrandedOverRuns | internal/consensus/commit.go:1733-1782 | over every run the stranded part grows by exactly the positions overwritten, and not at all exactly when nobody delegates onto a held one |
| Bank.SumOf | internal/consensus/delegation.go:99-106 | the saturating sum of the positions |
| Bank.ProRata | internal/consensus/delegation.go:86-96 | each position's truncated share |
| Bank.SplitOf | internal/consensus/delegation.go:65-81 | the computed split is the specified one, whose parts `Proportions.SplitFollowsCommission` gives |
| Bank.RewardWeights | internal/consensus/thermostat.go:78-87 | the saturating total of the reward weights |
| Bank.BondedTotal | internal/consensus/stake.go:14-21 | the saturating total of effective stakes |
| Bank.PickRemainderRecipient | internal/consensus/epoch.go:248-264 | the loop picks the specified recipient |
| Bank.Vault.StrictDebit | internal/consensus/commit.go:1890-1909 | debits exactly as specified or not at all, and the counter stays the sum of the balances |
| Bank.Vault.CreditCoin | internal/consensus/coins.go:192-218 | credits exactly when the coin exists, and the counter stays the sum of the balances |
| Bank.Vault.DeductCoinFee | internal/consensus/coins.go:162-188 | takes the fee or drains the coin, and the counter stays the sum of the balances |
| Bank.Vault.HandleBond | internal/consensus/commit.go:1666-1690 | the specified bond; a sound vault stays sound and keeps its gap exactly when the bond fails or the validator is not jailed |
| Bank.Vault.HandleUnbond | internal/consensus/commit.go:1696-1725 | the specified unbond; a sound vault keeps its gap exactly when it fails or the validator is not jailed |
| Bank.Vault.HandleDelegate | internal/consensus/commit.go:1733-1754 | the specified delegation; a sound vault stays sound with the same gap |
| Bank.Vault.HandleUndelegate | internal/consensus/commit.go:1761-1782 | the specified undelegation; a sound vault keeps its gap exactly when it fails or the validator is not jailed |
| Bank.Vault.DeductFees | internal/consensus/commit.go:1084-1111 | the specified charge; succeeds exactly when the coin covers it, and a sound vault keeps its gap exactly when nothing is burned |
| Bank.Vault.SettleDeleted | internal/consensus/commit.go:931-968 | the specified refund and burn; a sound vault stays sound with the same gap |
| Bank.Vault.CompoundDelegation | internal/consensus/epoch.go:288-303 | raises position and total by the reward, or does nothing |
| Bank.Vault.PayDelegators | internal/consensus/epoch.go:273-283 | the loop pays every listed delegator in full and nothing else moves |
| Bank.Vault.PayValidator | internal/consensus/epoch.go:318-337 | moves what it reports, all of it when the validator can be paid |
| Bank.Vault.PayShare | internal/consensus/epoch.go:236-242 | moves what it reports, the whole share when the validator can be paid |
| Bank.Vault.PayRemainder | internal/consensus/epoch.go:344-361 | moves all of the remainder or none |
| Bank.Vault.PayShares | internal/consensus/epoch.go:215-223 | the loop pays one share after the other as specified |
| Bank.Vault.DistributeEpochRewards | internal/consensus/epoch.go:200-230 | the specified distribution; the pool is credited or left over to the unit while it suffices |
| Bank.Vault.SettleDeferredEpoch | internal/consensus/epoch.go:149-168 | the specified settlement; a sound vault stays sound with the same gap and the supply grows by the issuance |
| Bank.Vault.ReturnStake | internal/consensus/epoch.go:432-477 | departs exactly as specified or not at all; a sound vault stays sound with the same gap |
| Bank.Vault.ApplyPendingRemovals | internal/consensus/epoch.go:384-419 | the loop with its churn break removes as specified; a sound vault stays sound, and whoever stays is untouched |
| Clock.NextRoundsEpoch | internal/consensus/epoch.go:661-675 | the epoch of the next round is one more exactly after a boundary round |
| Clock.EpochSpan | internal/consensus/epoch.go:661-675 | an epoch is exactly the rounds after its opening boundary up to its closing one |
| Clock.LatchPoint | internal/consensus/regime.go:133-146 | the latch leaves grace and buffer after the round it fires in, and never fires earlier than the next |
| Clock.LatchFiresIff | internal/consensus/regime.go:33-107 | the latch is armed by the first registration that reaches the required membership and by nothing else |
| Clock.StrictIff | internal/consensus/regime.go:19-25 | a round is strict exactly without a bootstrap or from the latched start on |
| Clock.StepConsistent | internal/consensus/commit.go:292-329 | every decision, registration and restart keeps the live clock in step with what the persisted one reads back as |
| Clock.HoldersResolve | internal/consensus/epoch.go:698-731 | frozen holders answer for the cursor round and the next exactly once genesis holders are frozen |
| Clock.ClockIsConsistent | internal/consensus/epoch.go:47-135 | over every run with restarts, the epoch counter is the cursor round's epoch, live and on disk, and holders resolve exactly while a snapshot is in force |
| Clock.HoldersResolveIff | internal/consensus/epoch_persist.go:151-163 | past genesis, holders resolve for this round and the next exactly unless the last boundary froze nobody and the node restarted since |
| Clock.NonEmptyIsKept | internal/consensus/epoch_persist.go:151-163 | while every boundary freezes somebody no restart loses the committee |
| Clock.EmptyCommitteeIsDropped | internal/consensus/epoch_persist.go:151-163 | a boundary that freezes nobody and a restart: the epoch has begun and nobody answers for it |
| Clock.HoldersAreFinal | internal/consensus/epoch.go:698-731 | over every run the committee that answers for a begun epoch never changes, but for an epoch that closes after its committee was dropped |
| Clock.RegimeIsFinal | internal/consensus/regime.go:19-25 | over every run a decided round keeps the regime it was decided under |
| Clock.StepKeepsRegime | internal/consensus/regime.go:133-146 | firing the latch reclassifies no round up to the one being decided, and a strict round stays strict |
| Clock.CommitClock.LatchStrictRegime | internal/consensus/regime.go:133-146 | fires once, past the crossing round, and marks the state for persistence |
| Clock.CommitClock.RecordMember | internal/consensus/regime.go:33-107 | refreezes genesis holders and arms the latch as specified, and live and persisted clock stay in step |
| Clock.CommitClock.AdvanceCommitCursor | internal/consensus/commit.go:292-329 | moves cursor and epoch and persists them together, an empty snapshot as an absent one |
| Clock.CommitClock.Restart | internal/consensus/epoch_persist.go:86-128 | the live state becomes what the persisted one reads back as, in step with its cursor |
| Arrival.QuietIsSettled | internal/consensus/dag.go:1638-1645 | when the retry loop stops, the store is exactly the arrivals whose whole ancestry arrived and the rest are pending |
| Arrival.ArrivalOrderIsForgotten | internal/consensus/dag.go:477-549 | two nodes given the same vertices in any order and with repetitions end alike |
| Arrival.Inbox.ValidateParents | internal/consensus/validate.go:271-336 | accepts, buffers or rejects by presence and round of the parents |
| Arrival.Inbox.AddVertex | internal/consensus/dag.go:477-549 | after each arrival store and buffer are functions of the set of arrivals |
| Arrival.Inbox.ProcessPending | internal/consensus/dag.go:1638-1645 | the retry loop terminates with nothing left to admit |
| Arrival.Inbox.TryProcessPending | internal/consensus/dag.go:1657-1711 | one pass admits something and shrinks the buffer, or nothing in it is ready |
| Arrival.Inbox.SnapshotPending | internal/consensus/dag.go:1715-1731 | every buffered vertex once, lower rounds first |
| Pool.EverySchedule | internal/attest/batch.go:45-72 | under every interleaving the pool stops within 2n + workers actions with each check run once into its own slot |
| Pool.ActInv | internal/attest/batch.go:60-72 | no two workers ever hold one index |
| Pool.ActLowersRank | internal/attest/batch.go:60-72 | every action of every worker makes progress |
| Proofs.DeferringKeepsVerdict | internal/aggregation/verify.go:92-150 | deferring signatures never changes who passes, and changes the reported error exactly when a readable proof with a bad signature precedes the first proof refused outright |
| Proofs.DeferringReportsTheRefusal | internal/aggregation/verify.go:92-150 | a bad signature before a refused proof: the batch reports the refusal, the inline loop the signature |
| Proofs.CollectChecks | internal/aggregation/verify.go:107-131 | plans this transaction's checks up to its first refusal and no other transaction's |
| Proofs.RunPool | internal/attest/batch.go:25-39 | one verdict per check in input order, whatever the scheduler does |
| Proofs.ApplyVerdicts | internal/aggregation/verify.go:137-150 | each transaction ends with the verdict it has alone |
| Proofs.VerifyBatch | internal/aggregation/verify.go:68-78 | every transaction gets in the batch exactly the verdict it gets alone |
| Proofs.ProofVerdicts.Next | internal/consensus/commit.go:502-515 | consumes one verdict for a proof-bearing transaction and none otherwise |
| Proofs.CollectRoundProofs | internal/consensus/commit.go:538-570 | the proof-bearing transactions in committed order |
| Proofs.ApplyRound | internal/consensus/commit.go:576-594 | the apply loop hands each proof-bearing transaction its own verdict |
| Rendezvous.HoldersAreBest | internal/attest/rendezvous.go:21-51 | holders are distinct, as many as asked and available, and outscore everyone left out |
| Rendezvous.PlacementIgnoresOrder | internal/attest/rendezvous.go:21-51 | the order validators are listed in does not matter |
| Rendezvous.MoreReplicasExtend | internal/attest/rendezvous.go:21-51 | one more replica only adds a holder at the end |
| Rendezvous.DepartureMovesOne | internal/attest/rendezvous.go:21-51 | a departure changes nothing for a non-holder and replaces just that holder otherwise |
| Rendezvous.QuorumsIntersect | internal/attest/rendezvous.go:69-71 | two attestation quorums share more than a third of the holders |
| Rendezvous.QuorumIsLeast | internal/attest/rendezvous.go:69-71 | the quorum is the least number of holders that is at least 67 percent |
| Rendezvous.SortByScore | internal/attest/rendezvous.go:40-43 | the array is permuted into non-ascending score order |
| Rendezvous.SortedIsRanked | internal/attest/rendezvous.go:32-43 | any way of sorting distinctly scored validators ends in their ranking |
| Rendezvous.ComputeHolders | internal/attest/rendezvous.go:21-51 | scoring and sorting in place give the front of a sorted listing however ties fall, and without ties exactly the ranked holders |
| Wire.ProofRoundTrip | internal/index/proof.go:161-222 | a proof survives the wire exactly when it is no deeper than the tree |
| Wire.DecodedIsEncoded | internal/index/proof.go:173-222 | whatever decodes is the encoding of what it decodes to |
| Wire.SerializeProof | internal/index/proof.go:161-169 | the loop writes the specified bytes |
| Wire.DeserializeProof | internal/index/proof.go:173-222 | the loops read exactly the specified proof or refuse |
| Wire.UnframeFramed | internal/consensus/epoch_accumulators.go:309-329 | a length-prefixed blob reads back with the rest untouched |
| Wire.BytesCompareAsNumbers | internal/consensus/epoch_accumulators.go:225-243 | numbers compare as their big-endian bytes do |
| Snapshot.MembersRoundTrip | internal/consensus/eligible.go:100-132 | a member set survives its encoding |
| Snapshot.EncodeMemberSet | internal/consensus/eligible.go:100-109 | whatever order the map is iterated in, the bytes are the canonical ones |
| Snapshot.DecodeMemberSet | internal/consensus/eligible.go:114-132 | the loop reads the specified set, empty when absent or truncated |
| Snapshot.CountersRoundTrip | internal/consensus/epoch_accumulators.go:225-268 | a counter set survives its encoding |
| Snapshot.EncodeCounterSet | internal/consensus/epoch_accumulators.go:225-243 | whatever order the map is iterated in, the bytes are the canonical ones |
| Snapshot.FeesRoundTrip | internal/consensus/epoch_accumulators.go:109-144 | the fee buckets survive their encoding |
| Snapshot.EncodeEpochFees | internal/consensus/epoch_accumulators.go:109-119 | whatever order the map is iterated in, the bytes are the canonical ones |
| Snapshot.RoundsRoundTrip | internal/consensus/epoch_accumulators.go:149-194 | the per-epoch liveness counters survive their encoding, less the epochs that count nobody |
| Snapshot.EncodePerEpochCounters | internal/consensus/epoch_accumulators.go:149-159 | whatever order both maps are iterated in, the bytes are the canonical ones |
| Snapshot.ListRoundTrip | internal/consensus/epoch_accumulators.go:274-306 | a hash list comes back in key order, each element as often as it was listed |
| Snapshot.EncodeHashList | internal/consensus/epoch_accumulators.go:274-286 | however the copy is sorted, the bytes depend on the elements and their counts alone |
| Snapshot.HoldersRoundTrip | internal/consensus/epoch_persist.go:178-255 | a holder snapshot survives its encoding |
| Snapshot.EncodeHolderSnapshot | internal/consensus/epoch_persist.go:178-203 | the loop writes the specified bytes |
| Snapshot.RegimeRoundTrip | internal/consensus/regime_sync.go:34-231 | a joiner with any regime of its own, applying the exported bytes, holds the exporter's regime exactly when it kept no accumulator where the exporter's was empty |
| Snapshot.StaleBucketSurvives | internal/consensus/epoch_accumulators.go:82-104 | a node stopped in epoch 4 keeps the fees and liveness of epoch 3 through a sync from an idle peer in epoch 9 |
| Snapshot.EncodeRegimeState | internal/consensus/regime_sync.go:34-64 | whatever order maps are iterated in and additions were recorded in, the bytes are those of the regime |
| Snapshot.OrderIsForgotten | internal/consensus/regime_sync.go:34-64 | nodes that recorded the same additions in different orders export the same bytes |

## Left out

- AnchorSafety.IndirectAgreement: holders read as silent are excluded, because the silence span is a view-dependent timing rule by the code's own account.
- CommitLog.LogsAgree: agreement of whole runs is stated away from the two fork shapes, since in them the code does disagree, and for rounds decided in the strict regime without equivocation.
- Settlement.SettleConserves: needs the pool to suffice for the shares and the supply after minting to fit in 64 bits; outside them the code overpays or saturates.
- Objects.ReachableIsForest: assumes fewer than 2^32 tracked objects, the range of the stored counter.
- StagedSafety.HandlingIsAtomic: assumes fewer than 2^31 operations in a list; the transaction shape allows 40.
- Snapshot.RegimeRoundTrip: assumes every count and length fits its field, and reads nil and empty collections as one value.
- Recovery.DiskSurvives: a crash falls between two vertices; one between a vertex's transactions and its flag is guarded per transaction hash, which is not modelled.
- The relaxed bootstrap regime's agreement between views is not claimed.
- Domain sweep events and the order of index removals during a sweep.
- Body owner and version rewriting on a reparent, and the holder-only body drop on a delete.
- Fee calculation from transaction headers; a charge takes the consumed and storage parts as given.
- Pod execution, and the creation of objects and coins by it, apart from the deposit a created object locks.
- Jailing itself; the ledger lemmas say what a jailed validator does to each flow.
- The vertices a stalled commit fetches, and every timer, stall counter and gossip path.
- Vertex signature, epoch, fee-summary and index-anchor checks, quarantine, unknown producers and the transition window on arrival.
- Versions.OneWriterPerVersion: speaks of versions short of 2^64, where the stored counter would wrap.
- The commit-once guard on transaction hashes.
- The choice of a round's designated producer among eligible holders, which the anchor rule takes as given.
- The combined walk over store and pending buffer that names missing causal roots.
- Duplicate public keys inside one encoded holder snapshot.
- Pre-parent tracker values of 18 bytes.
