/**
 The acquisition journal of a create operation. Each host resource is acquired
 in the profile's order and recorded, together with its inverse, before the
 next one is touched; the process may stop between any two durable writes.
 */
module Acquisition {
  import opened Results
  import opened Operations
  import opened Ownership

  /** One inverse and how far it got. */
  datatype Record = Record(descriptor: Descriptor, started: bool, succeeded: bool, attempts: nat, lastError: string)

  datatype Journal = Journal(receipts: seq<Receipt>, rollback: seq<Record>, stage: Stage)

  function Armed(d: Descriptor): Record { Record(d, false, false, 0, "") }

  /** The inverses of a journal's receipts, in the order of acquisition. */
  function Inverses(rules: Rules, rs: seq<Receipt>): seq<Record> {
    if rs == [] then []
    else
      var r := rs[|rs| - 1];
      var d := if InverseAction(r.kind).Some? then InverseDescriptor(rules, r, InverseAction(r.kind).value) else None;
      Inverses(rules, rs[..|rs| - 1]) + if d.Some? then [Armed(d.value)] else []
  }

  function Actionable(rs: seq<Receipt>): seq<Receipt> {
    if rs == [] then []
    else Actionable(rs[..|rs| - 1]) + if InverseAction(rs[|rs| - 1].kind).Some? then [rs[|rs| - 1]] else []
  }

  /** What holds of a create's journal whenever the process may stop. */
  predicate JournalInv(rules: Rules, owner: OwnerKey, j: Journal) {
    && IsPrefix(rules, owner.target.kind, j.receipts)
    && (forall i :: 0 <= i < |j.receipts| ==> j.receipts[i].owner == owner && !j.receipts[i].adopted)
    && j.rollback == Inverses(rules, j.receipts)
  }

  /** Each inverse decodes back to its own receipt: together they are the actionable receipts, in the same order. */
  lemma {:induction false} InversesDecode(rules: Rules, rs: seq<Receipt>)
    requires rules.ReadsBack() && forall i :: 0 <= i < |rs| ==> rules.Valid(rs[i]) && !rs[i].adopted
    ensures |Inverses(rules, rs)| == |Actionable(rs)|
    ensures forall i :: 0 <= i < |Inverses(rules, rs)| ==>
              var r := Actionable(rs)[i];
              InverseAction(r.kind).Some?
              && ReceiptFromDescriptor(rules, Inverses(rules, rs)[i].descriptor) == Some((r, InverseAction(r.kind).value))
  {
    if rs != [] {
      var r := rs[|rs| - 1];
      InversesDecode(rules, rs[..|rs| - 1]);
      InverseApplies(rules, r);
      if InverseAction(r.kind).Some? {
        var a := InverseAction(r.kind).value;
        DescriptorRoundTrip(rules, r, a);
      }
    }
  }

  /** Every journaled resource that an action can undo has that inverse in the journal, decoding to it. */
  lemma {:induction false} EveryReceiptIsUndone(rules: Rules, rs: seq<Receipt>, i: nat, a: Action) returns (k: nat)
    requires rules.ReadsBack() && forall j :: 0 <= j < |rs| ==> rules.Valid(rs[j]) && !rs[j].adopted
    requires i < |rs| && ValidFor(a, rs[i].provider, rs[i].kind)
    ensures k < |Inverses(rules, rs)|
    ensures ReceiptFromDescriptor(rules, Inverses(rules, rs)[k].descriptor) == Some((rs[i], a))
  {
    var n := |rs| - 1;
    if i < n {
      k := EveryReceiptIsUndone(rules, rs[..n], i, a);
    } else {
      InverseIsTheAction(rs[i].kind, a);
      InverseApplies(rules, rs[i]);
      DescriptorRoundTrip(rules, rs[i], a);
      k := |Inverses(rules, rs[..n])|;
    }
  }

  /** The record undoes one of the receipts, by name. */
  ghost predicate NamesOneOf(rs: seq<Receipt>, record: Record) {
    exists r :: r in rs && record.descriptor.name == Name(r.kind, r.localId)
  }

  /** Inverses of different kinds have different names. */
  lemma {:induction false} InversesOfKinds(rules: Rules, rs: seq<Receipt>)
    requires forall i, j :: 0 <= i < j < |rs| ==> rs[i].kind != rs[j].kind
    ensures forall k :: 0 <= k < |Inverses(rules, rs)| ==>
              NamesOneOf(rs, Inverses(rules, rs)[k]) && Inverses(rules, rs)[k] == Armed(Inverses(rules, rs)[k].descriptor)
    ensures forall k, l :: 0 <= k < l < |Inverses(rules, rs)| ==>
              Inverses(rules, rs)[k].descriptor.name != Inverses(rules, rs)[l].descriptor.name
  {
    hide Name, Rules.Valid, InverseAction, ValidFor;
    if rs != [] {
      var n := |rs| - 1;
      var before, all, last := Inverses(rules, rs[..n]), Inverses(rules, rs), rs[n];
      InversesOfKinds(rules, rs[..n]);
      assert forall k :: |before| <= k < |all| ==> all[k].descriptor.name == Name(last.kind, last.localId);
      assert |all| <= |before| + 1 && forall k :: 0 <= k < |before| ==> all[k] == before[k];
      forall k | 0 <= k < |all|
        ensures NamesOneOf(rs, all[k]) && all[k] == Armed(all[k].descriptor)
        ensures k < |before| ==> all[k].descriptor.name != Name(last.kind, last.localId)
      {
        if k < |before| {
          assert NamesOneOf(rs[..n], before[k]);
          var r :| r in rs[..n] && before[k].descriptor.name == Name(r.kind, r.localId);
          if all[k].descriptor.name == Name(last.kind, last.localId) {
            NameDecides(r.kind, r.localId, last.kind, last.localId);
          }
        }
      }
    }
  }

  /** The stage under which each acquisition is recorded. */
  function StageOf(k: Kind): Stage {
    match k
    case SandboxCgroup => PrepareCgroup
    case KeeperCgroup => PrepareCgroup
    case AttemptCgroup => PrepareCgroup
    case KeeperProcess => CreateProcess
    case InitProcess => CreateProcess
    case StartGate => PrepareStartGate
    case StreamSet => PrepareStreams
    case RootfsMount => PrepareRootfs
    case _ => PrepareNamespaces
  }

  lemma ValidIsPrefix(rules: Rules, owner: OwnerKey, j: Journal)
    requires JournalInv(rules, owner, j)
    ensures IsPrefix(rules, owner.target.kind, j.receipts) && |j.receipts| <= |Profile(owner.target.kind)|
    ensures IsProfile(rules, owner.target.kind, j.receipts) <==> |j.receipts| == |Profile(owner.target.kind)|
  {
    hide Profile, Rules.Valid;
  }

  /** Along a profile the recorded stages are ones a provider may checkpoint, and never go back. */
  lemma StagesAdvance(target: TargetKind, i: nat, j: nat)
    requires i <= j < |Profile(target)|
    ensures StageOf(Profile(target)[i]).IsCheckpoint()
    ensures StageOf(Profile(target)[i]).Rank() <= StageOf(Profile(target)[j]).Rank()
  {
  }

  lemma JournalGrows(rules: Rules, owner: OwnerKey, j: Journal, r: Receipt, stage: Stage)
    requires JournalInv(rules, owner, j) && |j.receipts| < |Profile(owner.target.kind)|
    requires rules.Valid(r) && !r.adopted && r.owner == owner && r.kind == Profile(owner.target.kind)[|j.receipts|]
    ensures JournalInv(rules, owner, Extended(rules, j, r, stage))
  {
    hide Profile, Rules.Valid, InverseAction, InverseDescriptor;
    var rs := j.receipts + [r];
    assert rs[..|rs| - 1] == j.receipts;
    InverseApplies(rules, r);
  }

  function Extended(rules: Rules, j: Journal, r: Receipt, stage: Stage): Journal {
    var d := if InverseAction(r.kind).Some? then InverseDescriptor(rules, r, InverseAction(r.kind).value) else None;
    Journal(j.receipts + [r], j.rollback + (if d.Some? then [Armed(d.value)] else []), stage)
  }

  class Create {
    const rules: Rules
    const owner: OwnerKey

    /** The providers and the store answer, and the process goes on; and what the providers then answer. No call changes it. */
    var reliable: bool
    const answers: Kind -> Receipt

    /** The providers answer what they are asked for. */
    ghost predicate AnswersFit() {
      forall k :: k in Profile(owner.target.kind) ==>
        rules.Valid(answers(k)) && !answers(k).adopted && answers(k).kind == k && answers(k).owner == owner
    }

    ghost predicate Works()
      reads this
    {
      reliable && AnswersFit()
    }

    /** What is durable. */
    var journal: Journal

    /** Every journal that was ever durable. */
    ghost var durable: seq<Journal>

    ghost predicate Valid()
      reads this
    {
      && rules.ownerOk(owner) && JournalInv(rules, owner, journal)
      && forall i :: 0 <= i < |durable| ==> JournalInv(rules, owner, durable[i])
    }

    constructor (rules: Rules, owner: OwnerKey, reliable: bool, answers: Kind -> Receipt)
      requires rules.ownerOk(owner)
      ensures Valid() && this.rules == rules && this.owner == owner && journal == Journal([], [], PersistIntent)
      ensures this.reliable == reliable && this.answers == answers
    {
      this.rules, this.owner, this.reliable, this.answers := rules, owner, reliable, answers;
      journal, durable := Journal([], [], PersistIntent), [];
    }

    /** The provider makes sure of one resource: a receipt of that kind for that owner, valid or not, or an error. */
    method Ensure(kind: Kind) returns (r: Option<Receipt>)
      ensures r.Some? ==> r.value.kind == kind && r.value.owner == owner
      ensures Works() && kind in Profile(owner.target.kind) ==> r.Some? && rules.Valid(r.value) && !r.value.adopted
    {
      var fails: bool, receipt: Receipt := *, *;
      receipt := if reliable then answers(kind) else receipt;
      r := if fails && !reliable then None else Some(receipt.(kind := kind, owner := owner));
    }

    /** The store takes the new journal, or refuses, or takes it and the answer is lost. */
    method Persist(next: Journal) returns (ok: bool)
      requires Valid() && JournalInv(rules, owner, next)
      modifies this`journal, this`durable
      ensures Valid() && (journal == next || (!ok && journal == old(journal)))
      ensures reliable ==> ok
    {
      var stored: bool, answered: bool := *, *;
      stored, answered := stored || reliable, answered || reliable;
      if stored {
        journal := next;
        durable := durable + [next];
      }
      ok := stored && answered;
    }

    /** Appends one receipt and its inverse in a single durable write. */
    method CheckpointReceipt(receipt: Receipt, stage: Stage) returns (ok: bool)
      requires Valid() && |journal.receipts| < |Profile(owner.target.kind)|
      requires receipt.owner == owner && receipt.kind == Profile(owner.target.kind)[|journal.receipts|]
      modifies this`journal, this`durable
      ensures Valid()
      ensures reliable && rules.Valid(receipt) && !receipt.adopted ==> ok
      ensures journal == old(journal) || journal == Extended(rules, old(journal), receipt, stage)
      ensures ok ==> |journal.receipts| == |old(journal.receipts)| + 1
    {
      hide Profile, JournalInv, InverseAction, InverseDescriptor, Rules.Valid;
      if !rules.Valid(receipt) || receipt.adopted {
        return false;
      }
      if journal.receipts != [] {
        var last := journal.receipts[|journal.receipts| - 1];
        LastKindDiffers(rules, owner, journal, receipt);
        if last.provider == receipt.provider && last.kind == receipt.kind && last.localId == receipt.localId {
          assert false;
        }
      }
      JournalGrows(rules, owner, journal, receipt, stage);
      InverseApplies(rules, receipt);
      var next := journal.(receipts := journal.receipts + [receipt], stage := stage);
      var action := InverseAction(receipt.kind);
      if action.Some? {
        var descriptor := InverseDescriptor(rules, receipt, action.value);
        if descriptor.None? {
          return false;
        }
        next := next.(rollback := next.rollback + [Armed(descriptor.value)]);
      }
      assert next == Extended(rules, journal, receipt, stage) by {
        assert journal.rollback + [] == journal.rollback;
      }
      ok := Persist(next);
    }

    /** The last acquisition was recorded under its own stage. */
    predicate Staged()
      reads this
    {
      journal.receipts != [] && journal.stage == StageOf(journal.receipts[|journal.receipts| - 1].kind)
    }

    /** One attempt at a create: on a system that works it completes; otherwise it goes on from what is durable and may stop anywhere. */
    method AcquireAll() returns (complete: bool)
      requires Valid()
      modifies this`journal, this`durable
      ensures Valid()
      ensures complete ==> IsProfile(rules, owner.target.kind, journal.receipts)
      ensures Works() ==> complete
      ensures old(journal.receipts) <= journal.receipts
      ensures journal == old(journal) || Staged()
    {
      hide Profile, JournalInv, IsPrefix, Rules.Valid, AnswersFit, InverseAction, InverseDescriptor;
      while |journal.receipts| < |Profile(owner.target.kind)|
        invariant Valid() && old(journal.receipts) <= journal.receipts
        invariant journal == old(journal) || Staged()
        decreases |Profile(owner.target.kind)| - |journal.receipts|
      {
        ValidIsPrefix(rules, owner, journal);
        var kind := Profile(owner.target.kind)[|journal.receipts|];
        var receipt := Ensure(kind);
        var stops: bool := *;
        if receipt.None? || (stops && !reliable) {
          return false;
        }
        var ok := CheckpointReceipt(receipt.value, StageOf(kind));
        if !ok {
          return false;
        }
      }
      ValidIsPrefix(rules, owner, journal);
      complete := ValidateJournal(rules, owner.target.kind, journal.receipts, true);
    }

    /** Any number of attempts, each ended by an error or a crash. */
    method Retry(attempts: nat) returns (complete: bool)
      requires Valid()
      modifies this`journal, this`durable
      ensures Valid() && old(journal.receipts) <= journal.receipts
      ensures Works() && attempts > 0 ==> complete
      ensures complete ==> IsProfile(rules, owner.target.kind, journal.receipts)
    {
      complete := false;
      for i := 0 to attempts
        invariant Valid() && old(journal.receipts) <= journal.receipts
        invariant Works() && i > 0 ==> complete
        invariant complete ==> IsProfile(rules, owner.target.kind, journal.receipts)
      {
        if !complete {
          complete := AcquireAll();
        }
      }
    }

    /** Confirmation hands over exactly the journaled receipts, each marked as adopted. */
    method Adopt() returns (inventory: seq<Receipt>)
      requires Valid() && IsProfile(rules, owner.target.kind, journal.receipts)
      modifies this`journal
      ensures inventory == journal.receipts == AdoptedAll(old(journal.receipts))
    {
      hide JournalInv, IsProfile;
      inventory := [];
      ghost var receipts := journal.receipts;
      for i := 0 to |journal.receipts|
        invariant |journal.receipts| == |receipts| && |inventory| == i
        invariant forall k :: 0 <= k < i ==> journal.receipts[k] == Adopted(receipts[k]) == inventory[k]
        invariant forall k :: i <= k < |receipts| ==> journal.receipts[k] == receipts[k]
      {
        var adopted := Adopted(journal.receipts[i]);
        journal := journal.(receipts := journal.receipts[i := adopted]);
        inventory := inventory + [adopted];
      }
    }
  }

  function AdoptedAll(rs: seq<Receipt>): (r: seq<Receipt>)
    ensures |r| == |rs| && forall i :: 0 <= i < |rs| ==> r[i] == Adopted(rs[i])
  {
    seq(|rs|, i requires 0 <= i < |rs| => Adopted(rs[i]))
  }

  /** The journal's last kind is never the next one, so an exact retry is never mistaken for the next acquisition. */
  lemma LastKindDiffers(rules: Rules, owner: OwnerKey, j: Journal, r: Receipt)
    requires JournalInv(rules, owner, j) && 0 < |j.receipts| < |Profile(owner.target.kind)|
    requires r.kind == Profile(owner.target.kind)[|j.receipts|]
    ensures j.receipts[|j.receipts| - 1].kind != r.kind
  {
    hide Profile;
    ProfileKindsDiffer(owner.target.kind, |j.receipts| - 1, |j.receipts|);
  }

  /** What adoption leaves is a complete profile of one owner with nothing but adopted receipts: what start and delete require. */
  lemma AdoptionCompletes(rules: Rules, target: TargetKind, rs: seq<Receipt>)
    requires IsProfile(rules, target, rs)
    requires forall r :: rules.textOk(r) ==> rules.textOk(Adopted(r))
    ensures IsProfile(rules, target, AdoptedAll(rs))
    ensures forall i :: 0 <= i < |rs| ==> AdoptedAll(rs)[i].adopted
  {
    hide Profile;
  }
}
