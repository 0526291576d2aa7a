/**
 Deleting a Container or Sandbox. Resources are removed in dependency order,
 each proof of absence is durable before the next removal, and metadata goes
 only when the proofs cover the whole inventory.
 */
module TeardownOrder {
  import opened Results
  import opened Operations
  import opened Ownership

  /** The order of removal; users of a resource go before it. */
  function Order(target: TargetKind): seq<Kind> {
    match target
    case TargetSandbox => [KeeperProcess, NetworkNamespace, IpcNamespace, UtsNamespace, KeeperCgroup, SandboxCgroup]
    case _ => [RootfsMount, InitProcess, MountNamespace, PidNamespace, StreamSet, StartGate, AttemptCgroup]
  }

  /** A process holds its namespaces open. */
  predicate Holds(process: Kind, k: Kind) {
    || (process == KeeperProcess && (k == UtsNamespace || k == IpcNamespace || k == NetworkNamespace))
    || (process == InitProcess && (k == PidNamespace || k == MountNamespace))
  }

  predicate GoesBefore(target: TargetKind, first: Kind, last: Kind) {
    exists i, j :: 0 <= i < j < |Order(target)| && Order(target)[i] == first && Order(target)[j] == last
  }

  /** What was acquired later goes first, except that a process goes before the namespaces it holds. */
  lemma OrderUndoesProfile(target: TargetKind, i: nat, j: nat)
    requires i < j < |Profile(target)|
    ensures var earlier, later := Profile(target)[i], Profile(target)[j];
            if Holds(earlier, later) then GoesBefore(target, earlier, later) else GoesBefore(target, later, earlier)
  {
    var at := if target == TargetSandbox then [5, 4, 0, 3, 2, 1] else [6, 5, 4, 1, 3, 2, 0];
    assert Order(target)[at[i]] == Profile(target)[i] && Order(target)[at[j]] == Profile(target)[j];
  }

  /** Exactly one receipt of the kind, or none is chosen. */
  predicate IsOnly(rs: seq<Receipt>, kind: Kind, r: Receipt) {
    exists i :: 0 <= i < |rs| && rs[i] == r && r.kind == kind && forall j :: 0 <= j < |rs| && rs[j].kind == kind ==> j == i
  }

  method ReceiptByKind(rs: seq<Receipt>, kind: Kind) returns (found: Option<Receipt>)
    ensures found.Some? ==> IsOnly(rs, kind, found.value)
    ensures found.None? ==> forall r :: !IsOnly(rs, kind, r)
  {
    var count: nat, at: nat := 0, 0;
    for i := 0 to |rs|
      invariant count == 0 ==> forall j :: 0 <= j < i ==> rs[j].kind != kind
      invariant count == 1 ==> at < i && rs[at].kind == kind && forall j :: 0 <= j < i && rs[j].kind == kind ==> j == at
      invariant count >= 2 ==> exists j, k :: 0 <= j < k < i && rs[j].kind == kind && rs[k].kind == kind
    {
      if rs[i].kind == kind {
        at, count := i, count + 1;
      }
    }
    found := if count == 1 then Some(rs[at]) else None;
  }

  method ReleaseByKind(releases: seq<Release>, kind: Kind) returns (found: bool)
    ensures found <==> exists i :: 0 <= i < |releases| && releases[i].resource.kind == kind
  {
    for i := 0 to |releases|
      invariant forall j :: 0 <= j < i ==> releases[j].resource.kind != kind
    {
      if releases[i].resource.kind == kind {
        return true;
      }
    }
    return false;
  }

  function Resources(releases: seq<Release>): (r: seq<Receipt>)
    ensures |r| == |releases| && forall i :: 0 <= i < |r| ==> r[i] == releases[i].resource
  {
    seq(|releases|, i requires 0 <= i < |releases| => releases[i].resource)
  }

  /** The check before metadata is deleted: as many releases as receipts, and a release for each receipt. */
  predicate Covers(releases: seq<Release>, inventory: seq<Receipt>) {
    |releases| == |inventory| && forall r :: r in inventory ==> r in Resources(releases)
  }

  method ValidateCompleteCleanupReleases(releases: seq<Release>, inventory: seq<Receipt>) returns (ok: bool)
    ensures ok <==> Covers(releases, inventory)
  {
    if |releases| != |inventory| {
      return false;
    }
    for i := 0 to |inventory|
      invariant forall k :: 0 <= k < i ==> inventory[k] in Resources(releases)
    {
      var found := false;
      for j := 0 to |releases|
        invariant found <==> inventory[i] in Resources(releases)[..j]
      {
        assert Resources(releases)[..j + 1] == Resources(releases)[..j] + [releases[j].resource];
        if releases[j].resource == inventory[i] {
          found := true;
        }
      }
      assert Resources(releases)[..|releases|] == Resources(releases);
      if !found {
        return false;
      }
    }
    return true;
  }

  predicate Distinct(rs: seq<Receipt>) {
    forall i, j :: 0 <= i < j < |rs| ==> rs[i] != rs[j]
  }

  /** Taking one occurrence out of a sequence keeps everything else. */
  lemma TakeOut(rs: seq<Receipt>, x: Receipt)
    returns (others: seq<Receipt>)
    requires x in rs
    ensures |others| == |rs| - 1 && multiset(rs) == multiset(others) + multiset{x}
    ensures forall r :: r in rs && r != x ==> r in others
  {
    var i :| 0 <= i < |rs| && rs[i] == x;
    others := rs[..i] + rs[i + 1..];
    assert rs == rs[..i] + [x] + rs[i + 1..];
  }

  lemma {:induction false} CountedIsBijection(rs: seq<Receipt>, inventory: seq<Receipt>)
    requires Distinct(inventory)
    requires |rs| == |inventory| && forall r :: r in inventory ==> r in rs
    ensures multiset(rs) == multiset(inventory)
    decreases |inventory|
  {
    if inventory != [] {
      var x, rest := inventory[0], inventory[1..];
      assert inventory == [x] + rest;
      assert x in inventory;
      var others := TakeOut(rs, x);
      forall r | r in rest
        ensures r in others
      {
        assert r in inventory && r != x;
      }
      CountedIsBijection(others, rest);
    }
  }

  /** Counting and membership make a bijection when no receipt occurs twice: the pigeonhole principle. */
  lemma CoverIsBijection(rs: seq<Receipt>, inventory: seq<Receipt>)
    requires Distinct(inventory)
    ensures |rs| == |inventory| && (forall r :: r in inventory ==> r in rs) <==> multiset(rs) == multiset(inventory)
  {
    hide Distinct;
    if |rs| == |inventory| && (forall r :: r in inventory ==> r in rs) {
      CountedIsBijection(rs, inventory);
    }
    if multiset(rs) == multiset(inventory) {
      assert |rs| == |multiset(rs)| == |multiset(inventory)| == |inventory|;
      forall r | r in inventory
        ensures r in rs
      {
        assert r in multiset(inventory);
      }
    }
  }

  /** For a complete profile the check passes exactly when releases and inventory match one to one. */
  lemma CoversIffBijection(rules: Rules, target: TargetKind, releases: seq<Release>, inventory: seq<Receipt>)
    requires IsProfile(rules, target, inventory)
    ensures Covers(releases, inventory) <==> multiset(Resources(releases)) == multiset(inventory)
  {
    hide Profile, Rules.Valid;
    forall i, j | 0 <= i < j < |inventory|
      ensures inventory[i] != inventory[j]
    {
      ProfileKindsDiffer(target, i, j);
    }
    CoverIsBijection(Resources(releases), inventory);
  }

  /** Replacing the second of two equal entries keeps every receipt covered and yet matches no longer. */
  lemma RepeatedEntryReplaced(inventory: seq<Receipt>, i: nat, j: nat, other: Receipt)
    requires i < j < |inventory| && inventory[i] == inventory[j] && other != inventory[j]
    ensures forall r :: r in inventory ==> r in inventory[j := other]
    ensures multiset(inventory[j := other]) != multiset(inventory)
  {
    var rs := inventory[j := other];
    assert rs[i] == inventory[i];
    forall r | r in inventory
      ensures r in rs
    {
      var k :| 0 <= k < |inventory| && inventory[k] == r;
      assert rs[if k == j then i else k] == r;
    }
    assert multiset(rs) == multiset(inventory)[inventory[j] := multiset(inventory)[inventory[j]] - 1]
                           [other := multiset(inventory)[other] + 1];
  }

  /** The count and membership of the check decide a one-to-one match. */
  ghost predicate CheckIsExact(inventory: seq<Receipt>) {
    forall rs: seq<Receipt> ::
      |rs| == |inventory| && (forall r :: r in inventory ==> r in rs) <==> multiset(rs) == multiset(inventory)
  }

  /** The check is exact for precisely the inventories in which no receipt occurs twice. */
  lemma DistinctIffExact(inventory: seq<Receipt>)
    ensures Distinct(inventory) <==> CheckIsExact(inventory)
  {
    if Distinct(inventory) {
      forall rs: seq<Receipt>
        ensures |rs| == |inventory| && (forall r :: r in inventory ==> r in rs) <==> multiset(rs) == multiset(inventory)
      {
        CoverIsBijection(rs, inventory);
      }
    } else {
      var i, j :| 0 <= i < j < |inventory| && inventory[i] == inventory[j];
      var other := inventory[j].(adopted := !inventory[j].adopted);
      RepeatedEntryReplaced(inventory, i, j, other);
    }
  }

  lemma OrderInProfile(target: TargetKind, i: nat)
    returns (k: nat)
    requires i < |Order(target)|
    ensures k < |Profile(target)| && Profile(target)[k] == Order(target)[i]
  {
    if target == TargetSandbox {
      k := [2, 5, 4, 3, 1, 0][i];
    } else {
      k := [6, 3, 5, 4, 2, 1, 0][i];
    }
  }

  /** A complete profile holds exactly one receipt of each kind in the order of removal. */
  lemma OrderCoversProfile(rules: Rules, target: TargetKind, inventory: seq<Receipt>, i: nat)
    requires IsProfile(rules, target, inventory) && i < |Order(target)|
    ensures exists r :: IsOnly(inventory, Order(target)[i], r)
  {
    hide Rules.Valid;
    var k := OrderInProfile(target, i);
    hide Profile, Order;
    forall j | 0 <= j < |inventory| && inventory[j].kind == Order(target)[i]
      ensures j == k
    {
      if j < k { ProfileKindsDiffer(target, j, k); }
      if k < j { ProfileKindsDiffer(target, k, j); }
    }
    assert IsOnly(inventory, Order(target)[i], inventory[k]);
  }

  /** The releases made so far are those of the first kinds of the order, one each. */
  ghost predicate DoneSoFar(target: TargetKind, operation: OpId, inventory: seq<Receipt>, releases: seq<Release>) {
    && |releases| <= |Order(target)|
    && forall i :: 0 <= i < |releases| ==>
         && releases[i].cleanup == operation
         && IsOnly(inventory, Order(target)[i], releases[i].resource)
  }

  lemma OrderKindsDiffer(target: TargetKind, i: nat, j: nat)
    requires i < j < |Order(target)|
    ensures Order(target)[i] != Order(target)[j]
  {
  }

  lemma ReleasedIffDone(target: TargetKind, operation: OpId, inventory: seq<Receipt>, releases: seq<Release>, k: nat)
    requires DoneSoFar(target, operation, inventory, releases) && k < |Order(target)|
    ensures (exists i :: 0 <= i < |releases| && releases[i].resource.kind == Order(target)[k]) <==> k < |releases|
  {
    hide Order;
    forall i | 0 <= i < |releases|
      ensures releases[i].resource.kind == Order(target)[k] <==> i == k
    {
      assert IsOnly(inventory, Order(target)[i], releases[i].resource);
      if i < k { OrderKindsDiffer(target, i, k); }
      if k < i { OrderKindsDiffer(target, k, i); }
    }
    if k < |releases| {
      assert releases[k].resource.kind == Order(target)[k];
    }
  }

  /** A finished teardown has a proof for each receipt of a complete profile. */
  lemma DoneCovers(rules: Rules, target: TargetKind, operation: OpId, inventory: seq<Receipt>, releases: seq<Release>)
    requires IsProfile(rules, target, inventory)
    requires DoneSoFar(target, operation, inventory, releases) && |releases| == |Order(target)|
    ensures Covers(releases, inventory)
  {
    hide Rules.Valid;
    forall r | r in inventory
      ensures r in Resources(releases)
    {
      var k :| 0 <= k < |inventory| && inventory[k] == r;
      assert r.kind == Profile(target)[k];
      ProfileInOrder(target, k);
      var i :| 0 <= i < |Order(target)| && Order(target)[i] == r.kind;
      assert IsOnly(inventory, Order(target)[i], releases[i].resource);
      assert Resources(releases)[i] == r;
    }
  }

  lemma ProfileInOrder(target: TargetKind, k: nat)
    requires k < |Profile(target)|
    ensures Profile(target)[k] in Order(target)
    ensures |Profile(target)| == |Order(target)|
  {
    if target == TargetSandbox {
      assert Order(target)[0] == KeeperProcess && Order(target)[1] == NetworkNamespace && Order(target)[2] == IpcNamespace;
      assert Order(target)[3] == UtsNamespace && Order(target)[4] == KeeperCgroup && Order(target)[5] == SandboxCgroup;
    } else {
      assert Order(target)[0] == RootfsMount && Order(target)[1] == InitProcess && Order(target)[2] == MountNamespace;
      assert Order(target)[3] == PidNamespace && Order(target)[4] == StreamSet && Order(target)[5] == StartGate;
      assert Order(target)[6] == AttemptCgroup;
    }
  }

  /** The inventory a create hands over. */
  predicate HandedOver(rules: Rules, target: TargetKind, inventory: seq<Receipt>) {
    IsProfile(rules, target, inventory) && forall i :: 0 <= i < |inventory| ==> inventory[i].adopted
  }

  /** Of such an inventory each kind in the order is found, and its proof is one the store takes. */
  lemma HandedOverHas(rules: Rules, target: TargetKind, inventory: seq<Receipt>, k: nat, found: Option<Receipt>)
    requires HandedOver(rules, target, inventory) && k < |Order(target)|
    requires found.Some? ==> IsOnly(inventory, Order(target)[k], found.value)
    requires found.None? ==> forall r :: !IsOnly(inventory, Order(target)[k], r)
    ensures found.Some? && rules.Valid(found.value) && found.value.adopted
  {
    hide Order, Profile, Rules.Valid;
    OrderCoversProfile(rules, target, inventory, k);
  }

  class Delete {
    const rules: Rules
    const target: TargetKind
    const operation: OpId
    const inventory: seq<Receipt>

    /** The providers prove every removal, the store answers and the process goes on. No call changes it. */
    var reliable: bool

    /** Durable: the absence proofs, and whether metadata is still there. */
    var releases: seq<Release>
    var deleted: bool

    /** Resources removed from the host, each before its proof. */
    ghost var removed: seq<Receipt>

    ghost predicate Valid()
      reads this
    {
      && DoneSoFar(target, operation, inventory, releases)
      && (forall r :: r in Resources(releases) ==> r in removed)
      && (deleted ==> Covers(releases, inventory))
    }

    constructor (rules: Rules, target: TargetKind, operation: OpId, inventory: seq<Receipt>, reliable: bool)
      ensures Valid() && this.rules == rules && this.target == target && this.operation == operation
      ensures this.inventory == inventory && this.reliable == reliable && releases == [] && !deleted
    {
      this.rules, this.target, this.operation, this.inventory := rules, target, operation, inventory;
      this.reliable, releases, deleted, removed := reliable, [], false, [];
    }

    /** The provider removes a resource and proves its absence, or fails with or without an effect. */
    method Cleanup(r: Receipt) returns (release: Option<Release>)
      modifies this`removed
      ensures removed == old(removed) || removed == old(removed) + [r]
      ensures release.Some? ==> removed == old(removed) + [r] && release.value.cleanup == operation && release.value.resource == r
      ensures reliable ==> release.Some?
    {
      var effect: bool, proves: bool, evidence: string := *, *, *;
      effect, proves := effect || reliable, proves || reliable;
      if effect {
        removed := removed + [r];
      }
      release := if effect && proves then Some(Release(operation, r, evidence)) else None;
    }

    /** Makes one proof durable; the answer may be lost. A kind that already has a proof is never given another. */
    method CheckpointRelease(release: Release) returns (ok: bool)
      requires Valid() && !deleted && |releases| < |Order(target)|
      requires release.cleanup == operation && release.resource in removed
      requires IsOnly(inventory, Order(target)[|releases|], release.resource)
      modifies this`releases
      ensures Valid()
      ensures releases == old(releases) || releases == old(releases) + [release]
      ensures ok ==> releases == old(releases) + [release]
      ensures reliable && rules.ReleaseValid(release) ==> ok
    {
      hide Order;
      if !rules.ReleaseValid(release) {
        return false;
      }
      var stored: bool, answered: bool := *, *;
      stored, answered := stored || reliable, answered || reliable;
      if stored {
        assert Resources(releases + [release]) == Resources(releases) + [release.resource];
        releases := releases + [release];
      }
      ok := stored && answered;
    }

    /** One attempt at a delete: on a reliable system it deletes what a create handed over; otherwise it goes on from what is durable and may stop anywhere. */
    method Attempt() returns (done: bool)
      requires Valid()
      modifies this`releases, this`deleted, this`removed
      ensures Valid() && old(releases) <= releases && old(removed) <= removed
      ensures old(deleted) ==> deleted && releases == old(releases)
      ensures done ==> deleted
      ensures !old(deleted) && inventory == [] ==> !done && releases == old(releases) && removed == old(removed)
      ensures deleted && !old(deleted) ==> |releases| == |Order(target)|
      ensures reliable && HandedOver(rules, target, inventory) ==> done
    {
      hide Order, Covers, HandedOver, Rules.Valid, IsOnly;
      if deleted {
        return true;
      }
      for k := 0 to |Order(target)|
        invariant Valid() && !deleted && old(releases) <= releases && old(removed) <= removed
        invariant k <= |releases|
        invariant k == 0 ==> releases == old(releases) && removed == old(removed)
        invariant k > 0 ==> inventory != []
      {
        var receipt := ReceiptByKind(inventory, Order(target)[k]);
        if HandedOver(rules, target, inventory) {
          HandedOverHas(rules, target, inventory, k, receipt);
        }
        if receipt.None? {
          return false;
        }
        var released := ReleaseByKind(releases, Order(target)[k]);
        ReleasedIffDone(target, operation, inventory, releases, k);
        if !released {
          var stops: bool := *;
          var release := Cleanup(receipt.value);
          if release.None? || (stops && !reliable) {
            return false;
          }
          var ok := CheckpointRelease(release.value);
          if !ok {
            return false;
          }
        }
      }
      OrderNotEmpty(target);
      if HandedOver(rules, target, inventory) {
        HandedOverCovers(rules, target, operation, inventory, releases);
      }
      var complete := ValidateCompleteCleanupReleases(releases, inventory);
      if !complete {
        return false;
      }
      var stored: bool, answered: bool := *, *;
      stored, answered := stored || reliable, answered || reliable;
      deleted := stored;
      done := stored && answered;
    }

    /** Any number of attempts, each ended by an error or a crash. */
    method Retry(attempts: nat) returns (done: bool)
      requires Valid() && !deleted
      modifies this`releases, this`deleted, this`removed
      ensures Valid() && old(releases) <= releases && (done ==> deleted)
      ensures reliable && HandedOver(rules, target, inventory) && attempts > 0 ==> done
      ensures deleted ==> |releases| == |Order(target)| && forall r :: r in inventory ==> r in removed
    {
      hide Order, DoneSoFar, HandedOver;
      done := false;
      for i := 0 to attempts
        invariant reliable && HandedOver(rules, target, inventory) && i > 0 ==> done
        invariant Valid() && old(releases) <= releases && (done ==> deleted)
        invariant deleted ==> |releases| == |Order(target)|
      {
        done := Attempt();
      }
    }
  }

  lemma HandedOverCovers(rules: Rules, target: TargetKind, operation: OpId, inventory: seq<Receipt>, releases: seq<Release>)
    requires HandedOver(rules, target, inventory)
    requires DoneSoFar(target, operation, inventory, releases) && |releases| >= |Order(target)|
    ensures Covers(releases, inventory)
  {
    hide Order, Profile, Rules.Valid, IsOnly, Covers;
    DoneCovers(rules, target, operation, inventory, releases);
  }

  lemma OrderNotEmpty(target: TargetKind)
    ensures |Order(target)| > 0
  {
  }

  /** With the inventory a create hands over, a teardown whose last proof is durable always passes the check. */
  lemma CompleteTeardownDeletes(rules: Rules, target: TargetKind, operation: OpId, inventory: seq<Receipt>, releases: seq<Release>)
    requires IsProfile(rules, target, inventory)
    requires DoneSoFar(target, operation, inventory, releases)
    ensures Covers(releases, inventory) <==> |releases| == |Order(target)|
    ensures Covers(releases, inventory) <==> multiset(Resources(releases)) == multiset(inventory)
  {
    hide Rules.Valid, Profile, Order, Covers, DoneSoFar;
    ProfileInOrderSizes(target);
    CoversIffBijection(rules, target, releases, inventory);
    if |releases| == |Order(target)| {
      DoneCovers(rules, target, operation, inventory, releases);
    } else {
      CoversSize(releases, inventory);
    }
  }

  lemma ProfileInOrderSizes(target: TargetKind)
    ensures |Profile(target)| == |Order(target)|
  {
  }

  lemma CoversSize(releases: seq<Release>, inventory: seq<Receipt>)
    ensures Covers(releases, inventory) ==> |releases| == |inventory|
  {
  }
}
