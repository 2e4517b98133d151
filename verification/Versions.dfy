/** Optimistic concurrency: a transaction names the versions it read, and bumps those of
    the objects it may write (internal/consensus/tracker.go). */
module Versions {
  import opened Common
  import opened Objects
  import opened Ops

  /** An object reference; `id` is `None` unless it is 32 bytes long. */
  datatype ObjectRef = ObjectRef(id: Option<Hash>, named: bool, version: u64)

  /** A domain reference passes unchecked, any other must name the current version. */
  predicate Current(t: Tracked, r: ObjectRef)
  {
    if r.id.None? then r.named else Get(t, r.id.value).version == r.version
  }

  predicate AllCurrent(t: Tracked, refs: seq<ObjectRef>)
  {
    forall i :: 0 <= i < |refs| ==> Current(t, refs[i])
  }

  function Bumped(t: Tracked, id: Hash): Tracked
  {
    var e := Get(t, id);
    Track(t, id, (e.version + 1) % WORD, e.replication, e.fees, e.parent)
  }

  function BumpAll(t: Tracked, refs: seq<ObjectRef>): Tracked
  {
    if refs == [] then t
    else
      var n := |refs| - 1;
      var before := BumpAll(t, refs[..n]);
      if refs[n].id.None? then before else Bumped(before, refs[n].id.value)
  }

  /** checkAndUpdate: every version is checked before any is bumped. */
  function CheckAndUpdate(t: Tracked, read: seq<ObjectRef>, write: seq<ObjectRef>): (Tracked, bool)
  {
    if AllCurrent(t, read) && AllCurrent(t, write) then (BumpAll(t, write), true) else (t, false)
  }

  /** A transaction is accepted exactly when every object it names, read or written, is at the
      version it names; a reference by domain is not checked and a malformed one refuses it.
      A refused transaction changes nothing. */
  lemma AcceptedIff(t: Tracked, read: seq<ObjectRef>, write: seq<ObjectRef>)
    ensures CheckAndUpdate(t, read, write).1 <==>
              && (forall i :: 0 <= i < |read| ==> AtNamedVersion(t, read[i]))
              && (forall i :: 0 <= i < |write| ==> AtNamedVersion(t, write[i]))
    ensures !CheckAndUpdate(t, read, write).1 ==> CheckAndUpdate(t, read, write).0 == t
  {
    hide Get;
    assert forall r :: Current(t, r) <==> AtNamedVersion(t, r);
  }

  predicate AtNamedVersion(t: Tracked, r: ObjectRef)
  {
    (r.id.Some? ==> Get(t, r.id.value).version == r.version) && (r.id.None? ==> r.named)
  }

  /** How often a list writes an object. */
  function Writes(refs: seq<ObjectRef>, id: Hash): nat
  {
    if refs == [] then 0
    else Writes(refs[..|refs| - 1], id) + if refs[|refs| - 1].id == Some(id) then 1 else 0
  }

  lemma BumpedEffect(t: Tracked, id: Hash, q: Hash)
    ensures Get(Bumped(t, id), q) ==
              if q == id then Get(t, q).(version := (Get(t, q).version + 1) % WORD) else Get(t, q)
    ensures Bumped(t, id).Keys == t.Keys + {id}
  {
    var e := Get(t, id);
    var base := t[id := Entry((e.version + 1) % WORD, e.replication, e.fees, e.parent, e.children)];
    RebindUntouched(base, ParentOf(t, id), e.parent);
  }

  /** A bump rebinds an edge to itself, or a new edge to a key: no count moves. */
  lemma RebindUntouched(t: Tracked, was: Option<Ref>, now: Ref)
    requires was == Some(now) || (was.None? && now.Key?)
    ensures Rebind(t, was, now) == t
  {
  }

  /** Accepting a transaction raises the version of each object once per write it declares
      and changes nothing else about any object; refusing it changes nothing at all. */
  lemma {:induction false} UpdateEffect(t: Tracked, refs: seq<ObjectRef>, q: Hash)
    ensures Get(BumpAll(t, refs), q) == Get(t, q).(version := (Get(t, q).version + Writes(refs, q)) % WORD)
    ensures q in t ==> q in BumpAll(t, refs)
    decreases |refs|
  {
    if refs == [] {
      assert (Get(t, q).version + 0) % WORD == Get(t, q).version;
    } else {
      var n := |refs| - 1;
      hide Bumped, Get;
      UpdateEffect(t, refs[..n], q);
      if refs[n].id.Some? {
        BumpedEffect(BumpAll(t, refs[..n]), refs[n].id.value, q);
        OneMore(Get(t, q).version + Writes(refs[..n], q));
      }
    }
  }

  lemma OneMore(x: nat)
    ensures (x % WORD + 1) % WORD == (x + 1) % WORD
  {
  }

  /** One tracker step: a transaction's version check, a rebinding of one edge, the
      tracking of an object, or its deletion. */
  datatype Step =
    | Commits(read: seq<ObjectRef>, write: seq<ObjectRef>)
    | Rebinds(id: Hash, parent: Ref)
    | Tracks(id: Hash, version: u64, replication: nat, fees: u64, parent: Ref)
    | Deletes(id: Hash)

  function After(t: Tracked, s: Step): Tracked
  {
    match s
    case Commits(read, write) => CheckAndUpdate(t, read, write).0
    case Rebinds(id, parent) => if id in t then SetParent(t, id, parent) else t
    case Tracks(id, version, replication, fees, parent) => Track(t, id, version, replication, fees, parent)
    case Deletes(id) => Delete(t, id)
  }

  /** The step takes the version of `id` back: a deletion, or a tracking at a lower one. */
  predicate Resets(t: Tracked, s: Step, id: Hash)
  {
    0 < Get(t, id).version && (s == Deletes(id) || (s.Tracks? && s.id == id && s.version < Get(t, id).version))
  }

  /** The step makes `version` of `id` current or still to come: a deletion, or a tracking
      at or below it. */
  predicate Reopens(s: Step, id: Hash, version: u64)
  {
    s == Deletes(id) || (s.Tracks? && s.id == id && s.version <= version)
  }

  /** No accepted list of writes would carry the 64-bit version of `id` past its end. */
  predicate ShortOfEnd(t: Tracked, s: Step, id: Hash)
  {
    s.Commits? ==> Get(t, id).version + |s.write| < WORD
  }

  /** Step `i` was an accepted transaction that wrote `id` at `version`. */
  ghost predicate WroteAt(states: seq<Tracked>, steps: seq<Step>, i: nat, id: Hash, version: u64)
    requires |states| == |steps| + 1
  {
    && i < |steps| && steps[i].Commits? && CheckAndUpdate(states[i], steps[i].read, steps[i].write).1
    && exists k :: 0 <= k < |steps[i].write| && steps[i].write[k].id == Some(id) && steps[i].write[k].version == version
  }

  ghost predicate IsRun(states: seq<Tracked>, steps: seq<Step>)
  {
    |states| == |steps| + 1 && forall j :: 0 <= j < |steps| ==> states[j + 1] == After(states[j], steps[j])
  }

  lemma {:induction false} WritesCount(refs: seq<ObjectRef>, id: Hash, k: nat)
    requires k < |refs| && refs[k].id == Some(id)
    ensures 0 < Writes(refs, id)
    decreases |refs|
  {
    if k < |refs| - 1 { WritesCount(refs[..|refs| - 1], id, k); }
  }

  lemma {:induction false} WritesBound(refs: seq<ObjectRef>, id: Hash)
    ensures Writes(refs, id) <= |refs|
  {
    if refs != [] { WritesBound(refs[..|refs| - 1], id); }
  }

  lemma RebindKeepsVersion(t: Tracked, id: Hash, parent: Ref, q: Hash)
    requires id in t
    ensures Get(SetParent(t, id, parent), q).version == Get(t, q).version
  {
    var base := t[id := t[id].(parent := parent)];
    RebindEdges(base, ParentOf(t, id), parent);
    if q in base { RebindCounts(base, ParentOf(t, id), parent, q); }
    hide Rebind;
  }

  lemma TrackedVersion(t: Tracked, s: Step, q: Hash)
    requires s.Tracks?
    ensures Get(After(t, s), q).version == if q == s.id then s.version else Get(t, q).version
  {
    var base := t[s.id := Entry(s.version, s.replication, s.fees, s.parent, Get(t, s.id).children)];
    RebindEdges(base, ParentOf(t, s.id), s.parent);
    if q in base { RebindCounts(base, ParentOf(t, s.id), s.parent, q); }
    hide Rebind;
  }

  lemma DeletedVersion(t: Tracked, id: Hash, q: Hash)
    requires q != id
    ensures Get(Delete(t, id), q).version == Get(t, q).version
  {
    if id in t { AdjustEdges(t - {id}, t[id].parent, -1); }
    hide Adjust;
  }

  lemma GoneVersion(t: Tracked, id: Hash)
    ensures Get(Delete(t, id), id).version == 0
  {
    if id in t { AdjustEdges(t - {id}, t[id].parent, -1); }
    hide Adjust;
  }

  /** What a step should make of a version: an accepted transaction adds its writes. */
  function VersionAfter(t: Tracked, s: Step, q: Hash): nat
  {
    var was := Get(t, q).version;
    match s
    case Commits(read, write) => was + if CheckAndUpdate(t, read, write).1 then Writes(write, q) else 0
    case Rebinds(_, _) => was
    case Tracks(id, version, _, _, _) => if q == id then version else was
    case Deletes(id) => if q == id then 0 else was
  }

  lemma StepVersion(t: Tracked, s: Step, q: Hash)
    requires ShortOfEnd(t, s, q)
    ensures Get(After(t, s), q).version == VersionAfter(t, s, q)
  {
    hide Get, BumpAll, SetParent, Track, Delete;
    match s
    case Commits(read, write) =>
      UpdateEffect(t, write, q);
      WritesBound(write, q);
    case Rebinds(id, parent) =>
      if id in t { RebindKeepsVersion(t, id, parent, q); }
    case Tracks(_, _, _, _, _) => TrackedVersion(t, s, q);
    case Deletes(id) => if q == id { GoneVersion(t, q); } else { DeletedVersion(t, id, q); }
  }

  /** Short of the 64-bit end, a step lowers a version exactly when it resets it. */
  lemma VersionDropsIff(t: Tracked, s: Step, q: Hash)
    requires ShortOfEnd(t, s, q)
    ensures Get(After(t, s), q).version < Get(t, q).version <==> Resets(t, s, q)
  {
    hide Get, After;
    StepVersion(t, s, q);
  }

  /** A version passed stays passed exactly until a step reopens it. */
  lemma StaysPassedIff(t: Tracked, s: Step, q: Hash, version: u64)
    requires ShortOfEnd(t, s, q) && Get(t, q).version > version
    ensures Get(After(t, s), q).version > version <==> !Reopens(s, q, version)
  {
    hide Get, After;
    StepVersion(t, s, q);
  }

  /** A run from `t` that resets `id` nowhere and ends in a write of it at `version`. */
  ghost predicate WritesNext(t: Tracked, id: Hash, version: u64, states: seq<Tracked>, steps: seq<Step>)
  {
    && IsRun(states, steps) && states[0] == t && steps != []
    && (forall m :: 0 <= m < |steps| ==> !Resets(states[m], steps[m], id) && ShortOfEnd(states[m], steps[m], id))
    && WroteAt(states, steps, |steps| - 1, id, version)
  }

  /** Some continuation without a reset writes `id` at `version`. */
  ghost predicate Writable(t: Tracked, id: Hash, version: u64)
  {
    exists states, steps :: WritesNext(t, id, version, states, steps)
  }

  /** A version can still be written without a reset exactly when it is not passed. */
  lemma WritableIff(t: Tracked, id: Hash, version: u64)
    requires version + 1 < WORD
    ensures Writable(t, id, version) <==> Get(t, id).version <= version
  {
    hide Get, WritesNext;
    if Writable(t, id, version) {
      var states, steps :| WritesNext(t, id, version, states, steps);
      WrittenWasAhead(t, id, version, states, steps);
    }
    if Get(t, id).version <= version {
      var states, steps := WriteUpTo(t, id, version);
      assert WritesNext(t, id, version, states, steps);
    }
  }

  lemma WrittenWasAhead(t: Tracked, id: Hash, version: u64, states: seq<Tracked>, steps: seq<Step>)
    requires WritesNext(t, id, version, states, steps)
    ensures Get(t, id).version <= version
  {
    hide Get, After, Resets;
    var n := |steps| - 1;
    WriterWasCurrent(states, steps, n, id, version);
    VersionsOnlyGrow(states, steps, 0, n, id);
  }

  /** Write the object at its current version, again and again, up to `version`. */
  lemma {:induction false} WriteUpTo(t: Tracked, id: Hash, version: u64)
    returns (states: seq<Tracked>, steps: seq<Step>)
    requires Get(t, id).version <= version && version + 1 < WORD
    ensures WritesNext(t, id, version, states, steps)
    decreases version - Get(t, id).version
  {
    var now := Get(t, id).version;
    var write := WriteAt(id, now);
    WriteAccepted(t, id);
    var next := After(t, write);
    if now == version {
      states, steps := [t, next], [write];
      assert write.write[0].id == Some(id) && write.write[0].version == version;
    } else {
      var later, rest := WriteUpTo(next, id, version);
      states, steps := [t] + later, [write] + rest;
      OneStepSooner(t, id, version, write, later, rest);
    }
  }

  function WriteAt(id: Hash, version: u64): Step
  {
    Commits([], [ObjectRef(Some(id), false, version)])
  }

  lemma WriteAccepted(t: Tracked, id: Hash)
    requires Get(t, id).version + 1 < WORD
    ensures var write := WriteAt(id, Get(t, id).version);
            && CheckAndUpdate(t, write.read, write.write).1
            && Get(After(t, write), id).version == Get(t, id).version + 1
  {
    var write := WriteAt(id, Get(t, id).version);
    WritesCount(write.write, id, 0);
    WritesBound(write.write, id);
    hide Get;
    StepVersion(t, write, id);
  }

  lemma OneStepSooner(t: Tracked, id: Hash, version: u64, s: Step, states: seq<Tracked>, steps: seq<Step>)
    requires WritesNext(After(t, s), id, version, states, steps)
    requires !Resets(t, s, id) && ShortOfEnd(t, s, id)
    ensures WritesNext(t, id, version, [t] + states, [s] + steps)
  {
    hide After, Resets, ShortOfEnd, CheckAndUpdate;
    var all, run := [t] + states, [s] + steps;
    forall m | 0 <= m < |run|
      ensures all[m + 1] == After(all[m], run[m]) && !Resets(all[m], run[m], id) && ShortOfEnd(all[m], run[m], id)
    {
      if m > 0 { assert states[m - 1 + 1] == After(states[m - 1], steps[m - 1]); }
    }
    var n := |steps| - 1;
    assert all[n + 1] == states[n] && run[n + 1] == steps[n];
  }

  /** Once an object is past a version, that version can be written again exactly from the
      step that reopens it: its deletion, or its tracking at or below it. */
  lemma ReopenedIff(t: Tracked, s: Step, id: Hash, version: u64)
    requires version + 1 < WORD && ShortOfEnd(t, s, id) && Get(t, id).version > version
    ensures !Writable(t, id, version)
    ensures Writable(After(t, s), id, version) <==> Reopens(s, id, version)
  {
    hide Get, After, Writable;
    WritableIff(t, id, version);
    WritableIff(After(t, s), id, version);
    StaysPassedIff(t, s, id, version);
  }

  lemma {:induction false} VersionsOnlyGrow(states: seq<Tracked>, steps: seq<Step>, i: nat, j: nat, q: Hash)
    requires IsRun(states, steps) && i <= j < |states|
    requires forall m :: i <= m < j ==> !Resets(states[m], steps[m], q) && ShortOfEnd(states[m], steps[m], q)
    ensures Get(states[i], q).version <= Get(states[j], q).version
    decreases j
  {
    hide Get, After, Resets;
    if i < j {
      VersionsOnlyGrow(states, steps, i, j - 1, q);
      VersionDropsIff(states[j - 1], steps[j - 1], q);
      assert states[j - 1 + 1] == After(states[j - 1], steps[j - 1]);
    }
  }

  lemma {:induction false} StaysPassed(states: seq<Tracked>, steps: seq<Step>, i: nat, j: nat, id: Hash, version: u64)
    requires IsRun(states, steps) && i <= j < |states| && Get(states[i], id).version > version
    requires forall m :: i <= m < j ==> !Reopens(steps[m], id, version) && ShortOfEnd(states[m], steps[m], id)
    ensures Get(states[j], id).version > version
    decreases j
  {
    hide Get, After, Reopens;
    if i < j {
      StaysPassed(states, steps, i, j - 1, id, version);
      StaysPassedIff(states[j - 1], steps[j - 1], id, version);
      assert states[j - 1 + 1] == After(states[j - 1], steps[j - 1]);
    }
  }

  /** Over every run: two accepted transactions write an object at one version only if a
      step between them reopened it. */
  lemma OneWriterPerVersion(states: seq<Tracked>, steps: seq<Step>, i: nat, j: nat, id: Hash, version: u64)
    requires IsRun(states, steps) && i < j
    requires forall m :: i < m < j && m < |steps| ==> !Reopens(steps[m], id, version)
    requires forall m :: i <= m <= j && m < |steps| ==> ShortOfEnd(states[m], steps[m], id)
    requires WroteAt(states, steps, i, id, version)
    ensures !WroteAt(states, steps, j, id, version)
  {
    if WroteAt(states, steps, j, id, version) {
      WriterWasCurrent(states, steps, i, id, version);
      WriterWasCurrent(states, steps, j, id, version);
      StaysPassed(states, steps, i + 1, j, id, version);
      assert false;
    }
  }

  lemma WriterWasCurrent(states: seq<Tracked>, steps: seq<Step>, i: nat, id: Hash, version: u64)
    requires IsRun(states, steps) && WroteAt(states, steps, i, id, version)
    requires ShortOfEnd(states[i], steps[i], id)
    ensures Get(states[i], id).version == version && Get(states[i + 1], id).version > version
  {
    hide Get, After;
    var k :| 0 <= k < |steps[i].write| && steps[i].write[k].id == Some(id) && steps[i].write[k].version == version;
    assert Current(states[i], steps[i].write[k]);
    WritesCount(steps[i].write, id, k);
    StepVersion(states[i], steps[i], id);
    assert states[i + 1] == After(states[i], steps[i]);
  }

  /** A deletion does allow it: an object tracked under its owner's key is written once, then
      named by the transaction that deletes it, and its identifier starts again at zero. */
  lemma DeletionReopensVersion(id: Hash, owner: Hash)
    ensures var steps := [Tracks(id, 0, 0, 0, Key(owner)), WriteAt(id, 0), WriteAt(id, 1), Deletes(id), WriteAt(id, 0)];
            var at := (n: u64) => map[id := Entry(n, 0, 0, Key(owner), 0)];
            var states: seq<Tracked> := [map[], at(0), at(1), at(2), map[], map[id := Blank().(version := 1)]];
            IsRun(states, steps) && WroteAt(states, steps, 1, id, 0) && WroteAt(states, steps, 4, id, 0)
  {
    var at := (n: u64) => map[id := Entry(n, 0, 0, Key(owner), 0)];
    OneBump(map[], id);
    OneBump(at(0), id);
    OneBump(at(1), id);
    assert at(2) - {id} == map[];
    assert Track(map[], id, 0, 0, 0, Key(owner)) == at(0);
    assert Delete(at(2), id) == map[];
    assert WriteAt(id, 0).write[0].id == Some(id) && WriteAt(id, 0).write[0].version == 0;
  }

  lemma OneBump(t: Tracked, id: Hash)
    ensures var write := WriteAt(id, Get(t, id).version);
            CheckAndUpdate(t, write.read, write.write) == (Bumped(t, id), true)
  {
    hide Bumped;
    var refs := WriteAt(id, Get(t, id).version).write;
    assert refs[..0] == [];
    assert BumpAll(t, refs) == Bumped(t, id);
  }

  // ---- In place ---------------------------------------------------------------------------

  method CheckRefs(tracker: ObjectTracker, refs: seq<ObjectRef>) returns (ok: bool)
    ensures ok == AllCurrent(tracker.entries, refs)
  {
    for i := 0 to |refs|
      invariant forall j :: 0 <= j < i ==> Current(tracker.entries, refs[j])
    {
      if refs[i].id.None? {
        if refs[i].named { continue; }
        return false;
      }
      if Get(tracker.entries, refs[i].id.value).version != refs[i].version { return false; }
    }
    return true;
  }

  method CheckAndBump(tracker: ObjectTracker, read: seq<ObjectRef>, write: seq<ObjectRef>) returns (ok: bool)
    modifies tracker
    ensures (tracker.entries, ok) == CheckAndUpdate(old(tracker.entries), read, write)
  {
    hide AllCurrent;
    ok := CheckRefs(tracker, read);
    if !ok { return; }
    ok := CheckRefs(tracker, write);
    if !ok { return; }
    for i := 0 to |write|
      invariant tracker.entries == BumpAll(old(tracker.entries), write[..i])
    {
      assert write[..i + 1][..i] == write[..i];
      if write[i].id.None? { continue; }
      var e := Get(tracker.entries, write[i].id.value);
      tracker.TrackObject(write[i].id.value, (e.version + 1) % WORD, e.replication, e.fees, e.parent);
    }
    assert write[..|write|] == write;
  }
}
