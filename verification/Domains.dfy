/** The domain registry: names, leases and the boundary sweep
    (internal/consensus/domainops.go, domain_sweep.go). */
module Domains {
  import opened Common

  const MAX_NAME: nat := 253
  const SYSTEM: string := "system"
  const SYSTEM_PREFIX: string := "system."

  datatype Leaf = Leaf(objectId: Hash, owner: Hash, expiry: u64)

  type Registry = map<string, Leaf>

  // ---- Names ----------------------------------------------------------------

  /** Index of the first dot, or the length when there is none. */
  function DotIndex(name: string): (i: nat)
    ensures i <= |name| && (i < |name| ==> name[i] == '.') && forall j :: 0 <= j < i ==> name[j] != '.'
  {
    if name == "" || name[0] == '.' then 0 else 1 + DotIndex(name[1..])
  }

  /** The dot-separated labels of a name. */
  function Labels(name: string): seq<string>
  {
    var i := DotIndex(name);
    if i == |name| then [name] else [name[..i]] + Labels(name[i + 1..])
  }

  /** The namespace of a dotted name. */
  function ParentName(name: string): Option<string>
  {
    var i := DotIndex(name);
    if i == |name| then None else Some(name[i + 1..])
  }

  /** Labels joined by dots. */
  function Dotted(labels: seq<string>): string
  {
    if labels == [] then "" else if |labels| == 1 then labels[0] else labels[0] + "." + Dotted(labels[1..])
  }

  /** A name is its labels joined by dots, and no label holds a dot. */
  lemma {:induction false} LabelsSpell(name: string)
    ensures Labels(name) != [] && Dotted(Labels(name)) == name
    ensures forall i :: 0 <= i < |Labels(name)| ==> '.' !in Labels(name)[i]
    decreases |name|
  {
    var i := DotIndex(name);
    if i == |name| {
      assert Labels(name) == [name];
    } else {
      LabelsSpell(name[i + 1..]);
      var head, rest := name[..i], Labels(name[i + 1..]);
      assert Labels(name) == [head] + rest;
      hide Labels;
      DottedCons(head, rest);
      assert name == head + "." + name[i + 1..];
    }
  }

  lemma DottedCons(head: string, rest: seq<string>)
    requires rest != []
    ensures Dotted([head] + rest) == head + "." + Dotted(rest)
  {
    assert ([head] + rest)[1..] == rest;
  }

  predicate ValidLabel(s: string)
  {
    s != "" && forall i :: 0 <= i < |s| ==>
      ('a' <= s[i] <= 'z') || ('0' <= s[i] <= '9') || s[i] == '-'
  }

  predicate ValidLabels(labels: seq<string>)
  {
    forall i :: 0 <= i < |labels| ==> ValidLabel(labels[i])
  }

  predicate ValidName(name: string)
  {
    && 0 < |name| <= MAX_NAME
    && name != SYSTEM && !(SYSTEM_PREFIX <= name)
    && ValidLabels(Labels(name))
  }

  predicate PlainChar(c: char)
  {
    ('a' <= c <= 'z') || ('0' <= c <= '9') || c == '-'
  }

  /** A lower-case letter, a digit, a hyphen, or a dot that stands between two of them. */
  predicate SpelledAt(name: string, i: nat)
    requires i < |name|
  {
    PlainChar(name[i]) || (name[i] == '.' && 0 < i < |name| - 1 && name[i + 1] != '.')
  }

  predicate WellSpelled(name: string)
  {
    name != "" && forall i :: 0 <= i < |name| ==> SpelledAt(name, i)
  }

  /** The labels of a name are all well formed exactly when it is spelled so. */
  lemma {:induction false} LabelsAreValidIff(name: string)
    ensures ValidLabels(Labels(name)) <==> WellSpelled(name)
    decreases |name|
  {
    var i := DotIndex(name);
    if i == |name| {
      assert Labels(name) == [name];
      OneLabel(name);
    } else {
      LabelsAreValidIff(name[i + 1..]);
      FirstLabel(name[..i], Labels(name[i + 1..]));
      HeadAndTail(name, i);
    }
  }

  lemma OneLabel(name: string)
    requires forall k :: 0 <= k < |name| ==> name[k] != '.'
    ensures ValidLabels([name]) <==> WellSpelled(name)
  {
    assert ValidLabels([name]) <==> ValidLabel([name][0]);
    if WellSpelled(name) {
      forall k | 0 <= k < |name| ensures PlainChar(name[k]) { assert SpelledAt(name, k); }
    }
    if ValidLabel(name) {
      forall k | 0 <= k < |name| ensures SpelledAt(name, k) { assert PlainChar(name[k]); }
    }
  }

  lemma FirstLabel(head: string, rest: seq<string>)
    ensures ValidLabels([head] + rest) <==> ValidLabel(head) && ValidLabels(rest)
  {
    var all := [head] + rest;
    assert all[0] == head && all[1..] == rest;
    assert forall k :: 0 <= k < |rest| ==> rest[k] == all[k + 1];
  }

  lemma HeadAndTail(name: string, i: nat)
    requires i < |name| && name[i] == '.' && forall j :: 0 <= j < i ==> name[j] != '.'
    ensures WellSpelled(name) <==> ValidLabel(name[..i]) && WellSpelled(name[i + 1..])
  {
    var head, tail := name[..i], name[i + 1..];
    if WellSpelled(name) {
      assert SpelledAt(name, i);
      forall k | 0 <= k < i ensures PlainChar(head[k]) { assert SpelledAt(name, k); }
      forall k | 0 <= k < |tail| ensures SpelledAt(tail, k) {
        assert tail[k] == name[i + 1 + k] && SpelledAt(name, i + 1 + k);
      }
    }
    if ValidLabel(head) && WellSpelled(tail) {
      assert SpelledAt(tail, 0);
      forall k | 0 <= k < |name| ensures SpelledAt(name, k) {
        if k < i { assert head[k] == name[k]; }
        if k == i { assert tail[0] == name[k + 1]; }
        if k > i { assert tail[k - i - 1] == name[k] && SpelledAt(tail, k - i - 1); }
      }
    }
  }

  /** Which names may be registered, letter by letter. */
  lemma ValidNameIff(name: string)
    ensures ValidName(name) <==>
              |name| <= 253 && WellSpelled(name) && name != "system" && !("system." <= name)
  {
    LabelsAreValidIff(name);
  }

  /** The reserved label appears nowhere in the name. */
  predicate Unreserved(name: string)
  {
    SYSTEM !in Labels(name)
  }

  /** A well-formed name is unreserved when its namespace is. */
  lemma NamespaceDecides(name: string)
    requires ValidName(name)
    requires ParentName(name).Some? ==> Unreserved(ParentName(name).value)
    ensures Unreserved(name)
  {
    var i := DotIndex(name);
    if i < |name| && name[..i] == SYSTEM { ReservedFirst(name); }
  }

  lemma ReservedFirst(name: string)
    requires DotIndex(name) < |name| && name[..DotIndex(name)] == SYSTEM
    ensures SYSTEM_PREFIX <= name
  {
    assert name[..|SYSTEM_PREFIX|] == SYSTEM_PREFIX;
  }

  // ---- Leases ---------------------------------------------------------------

  function Later(a: u64, b: u64): u64
  {
    if b > a then b else a
  }

  /** The expiry a registration or renewal buys, unless the term is zero or too long. */
  function DomainExpiry(current: u64, epoch: u64, term: u64, maxTerm: u64): (r: Option<u64>)
    ensures r.Some? ==> epoch <= r.value <= SafeAdd(epoch, maxTerm) && current <= r.value
    ensures r.Some? && epoch < MAX_U64 && current < MAX_U64 ==> r.value > epoch && r.value > current
  {
    if term == 0 then None
    else
      var expiry := SafeAdd(Later(current, epoch), term);
      if expiry > SafeAdd(epoch, maxTerm) then None else Some(expiry)
  }

  /** Short of saturation, a lease runs for exactly the term bought from the later of its old
      expiry and now, and is refused exactly when the term is zero or ends past the longest. */
  lemma ExpiryIff(current: u64, epoch: u64, term: u64, maxTerm: u64)
    requires Later(current, epoch) + term < WORD && epoch + maxTerm < WORD
    ensures var start := if current > epoch then current else epoch;
            DomainExpiry(current, epoch, term, maxTerm)
            == if term > 0 && start + term <= epoch + maxTerm then Some(start + term) else None
  {
  }

  /** Renewing for `a` and then for `b` in one epoch is renewing once for both. */
  lemma RenewalsAdd(current: u64, epoch: u64, a: u64, b: u64, maxTerm: u64)
    requires a > 0 && b > 0 && a + b < WORD
    ensures var first := DomainExpiry(current, epoch, a, maxTerm);
            DomainExpiry(current, epoch, a + b, maxTerm)
            == if first.None? then None else DomainExpiry(first.value, epoch, b, maxTerm)
  {
  }

  /** What every registered leaf satisfies while `epoch` is live. */
  ghost predicate GoodLeaf(name: string, leaf: Leaf, epoch: u64, maxTerm: u64, grace: u64)
  {
    && ValidName(name) && Unreserved(name)
    && leaf.owner != ZERO_HASH
    && epoch <= SafeAdd(leaf.expiry, grace)
    && leaf.expiry <= SafeAdd(epoch, maxTerm)
  }

  ghost predicate GoodRegistry(reg: Registry, epoch: u64, maxTerm: u64, grace: u64)
  {
    forall n :: n in reg ==> GoodLeaf(n, reg[n], epoch, maxTerm, grace)
  }

  /** Names past their grace window when `newEpoch` opens. */
  function Expired(reg: Registry, newEpoch: u64, grace: u64): set<string>
  {
    set n | n in reg && newEpoch > SafeAdd(reg[n].expiry, grace)
  }

  /** A name is swept exactly when the new epoch is past its expiry by more than the grace. */
  lemma ExpiredIff(reg: Registry, newEpoch: u64, grace: u64, name: string)
    requires name in reg && reg[name].expiry + grace < WORD
    ensures name in Expired(reg, newEpoch, grace) <==> newEpoch > reg[name].expiry + grace
  {
  }

  /** The boundary sweep: exactly the expired names go. */
  method SweepExpired(reg: Registry, newEpoch: u64, grace: u64) returns (swept: Registry)
    ensures swept == reg - Expired(reg, newEpoch, grace)
  {
    var names: set<string> := {};
    var todo := reg.Keys;
    while todo != {}
      invariant todo <= reg.Keys
      invariant names == set n | n in reg && n !in todo && newEpoch > SafeAdd(reg[n].expiry, grace)
      decreases todo
    {
      var n :| n in todo;
      if newEpoch > SafeAdd(reg[n].expiry, grace) {
        names := names + {n};
      }
      todo := todo - {n};
    }
    swept := reg;
    while names != {}
      invariant names <= Expired(reg, newEpoch, grace)
      invariant swept == reg - (Expired(reg, newEpoch, grace) - names)
      decreases names
    {
      var n :| n in names;
      swept := swept - {n};
      names := names - {n};
    }
  }

  /** Crossing a boundary with the sweep keeps every leaf good for the new epoch. */
  lemma SweepKeepsGood(reg: Registry, epoch: u64, maxTerm: u64, grace: u64)
    requires GoodRegistry(reg, epoch, maxTerm, grace) && epoch < MAX_U64
    ensures GoodRegistry(reg - Expired(reg, epoch + 1, grace), epoch + 1, maxTerm, grace)
  {
    var swept := reg - Expired(reg, epoch + 1, grace);
    forall n | n in swept ensures GoodLeaf(n, swept[n], epoch + 1, maxTerm, grace) {
      assert GoodLeaf(n, reg[n], epoch, maxTerm, grace);
    }
  }
}
