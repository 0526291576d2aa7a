/** The identity that recovery gives an operation of its own, found by probing a bounded number of candidates. */
module IdentityProbe {
  import opened Results
  import opened Counting
  import opened Operations

  const IDENTITY_LIMIT: nat := 65536

  /** An identity is held by a complete operation, or by the tombstone of an expired one. */
  datatype Held = Live(binding: Binding, state: OpState) | Expired

  datatype Error = InvariantViolation | Exhausted

  /** The retained operation is the current observation's own. */
  predicate SameRequest(h: Held, kind: OpType, target: Target, fingerprint: string) {
    h.Live? && h.binding.kind == kind && h.binding.target == target && h.binding.fingerprint == fingerprint
  }

  /** Every stored operation is filed under its own ID. */
  predicate Filed(store: map<OpId, Held>) {
    forall id :: id in store && store[id].Live? ==> store[id].binding.id == id
  }

  predicate CandidatesDiffer(candidate: nat -> OpId) {
    forall i, j :: 0 <= i < j <= IDENTITY_LIMIT ==> candidate(i) != candidate(j)
  }

  /** The first n candidates, when they differ, are n identities. */
  lemma {:induction false} DifferentCandidates(candidate: nat -> OpId, n: nat)
    requires CandidatesDiffer(candidate) && n <= IDENTITY_LIMIT + 1
    ensures |set k: nat | k < n :: candidate(k)| == n
  {
    if n > 0 {
      DifferentCandidates(candidate, n - 1);
      var smaller := set k: nat | k < n - 1 :: candidate(k);
      assert (set k: nat | k < n :: candidate(k)) == smaller + {candidate(n - 1)};
    }
  }

  /** One candidate more than the store can hold: different ones cannot all be taken. */
  lemma TooManyCandidates(store: map<OpId, Held>, candidate: nat -> OpId)
    requires forall k :: 0 <= k <= IDENTITY_LIMIT ==> candidate(k) in store
    requires CandidatesDiffer(candidate)
    ensures |store| > IDENTITY_LIMIT
  {
    var all := set k: nat | k < IDENTITY_LIMIT + 1 :: candidate(k);
    DifferentCandidates(candidate, IDENTITY_LIMIT + 1);
    SubsetSize(all, store.Keys);
    assert |store| == |store.Keys|;
  }

  /**
   Reuses the last observation's identity when it is bound to this very request,
   and otherwise probes for one that was never used. With a store within its
   limit and different candidates the probe always ends with an identity.
   */
  method RecoveryOperationID(store: map<OpId, Held>, last: Option<OpId>, candidate: nat -> OpId,
                             kind: OpType, target: Target, fingerprint: string)
    returns (r: Result<OpId, Error>)
    ensures r.Ok? ==> r.value !in store || (last == Some(r.value) && SameRequest(store[r.value], kind, target, fingerprint))
    ensures last.Some? && last.value in store && SameRequest(store[last.value], kind, target, fingerprint) ==> r == Ok(last.value)
    ensures r.Ok? && last != Some(r.value) ==>
              exists n: nat :: n <= IDENTITY_LIMIT && r.value == candidate(n) && forall k :: 0 <= k < n ==> candidate(k) in store
    ensures r.Err? && r.error == InvariantViolation <==> last.Some? && last.value !in store
    ensures r.Err? && r.error == Exhausted ==> |store| > IDENTITY_LIMIT || !CandidatesDiffer(candidate)
  {
    if last.Some? {
      if last.value !in store {
        return Err(InvariantViolation);
      }
      if SameRequest(store[last.value], kind, target, fingerprint) {
        return Ok(last.value);
      }
    }
    for nonce := 0 to IDENTITY_LIMIT + 1
      invariant forall k :: 0 <= k < nonce ==> candidate(k) in store
    {
      if candidate(nonce) !in store {
        return Ok(candidate(nonce));
      }
    }
    if CandidatesDiffer(candidate) {
      TooManyCandidates(store, candidate);
    }
    r := Err(Exhausted);
  }

  /** An identity of that kind resolves to New, Resume or Replay for the request, never to a binding mismatch. */
  lemma ProbedIdentityResolves(store: map<OpId, Held>, id: OpId, kind: OpType, target: Target, fingerprint: string)
    requires Filed(store)
    requires id !in store || SameRequest(store[id], kind, target, fingerprint)
    ensures Resolve(if id in store then Some((store[id].binding, store[id].state)) else None,
                    Binding(id, kind, target, fingerprint)).Some?
  {
  }
}
