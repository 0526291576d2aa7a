/**
 The lifecycle transactions. Each reads the store, decides, and either changes
 nothing or commits one permitted change; so everything proved about runs of
 permitted changes holds of every sequence of these calls.
 */
module LifecycleCoordinator {
  import opened Results
  import opened Domain
  import opened Operations
  import opened Ownership
  import opened LifecycleStore
  import StartOrder
  import TeardownOrder
  import Acquisition
  import Sandboxes
  import ContainerAttempts

  datatype Error =
    | NotFoundError
    | AlreadyExistsError
    | Precondition
    | Rejected
    | BindingMismatch
    | ProfileMismatch
    | VerificationRequired

  const NOTHING: Change := Change(None, KeepRes)

  predicate ResourceExists(db: Db, t: Target) {
    match t.kind
    case TargetSandbox => t.id in db.sandboxes
    case TargetContainer => t.id in db.pairs
    case TargetAttempt => true
  }

  /** The request continues an operation that is still active. */
  predicate Resumes(db: Db, profile: HostProfile, b: Binding) {
    b.id in db.ops && db.ops[b.id].profile == profile && db.ops[b.id].binding == b && db.ops[b.id].state == Running
  }

  /** The request's operation is over: its stored result is the answer. */
  predicate Replays(db: Db, profile: HostProfile, b: Binding) {
    b.id in db.ops && db.ops[b.id].profile == profile && db.ops[b.id].binding == b && db.ops[b.id].state != Running
  }

  /** The request's ID was never used, but another operation is active on its target. */
  predicate Conflicts(db: Db, b: Binding) {
    b.id !in db.ops && HasActive(db, b.target)
  }

  predicate IsNew(db: Db, b: Binding) {
    b.id !in db.ops && !HasActive(db, b.target)
  }

  function Intent(b: Binding, profile: HostProfile): Op {
    Op(b, profile, Running, PersistIntent, ResultPending, NO_PROGRESS, "")
  }

  function Finished(op: Op, result: OpResult, response: string): Op
    requires result != ResultPending
  {
    op.(state := if result == ResultFailed then Failed else Succeeded, stage := Complete, result := result, response := response)
  }

  /** A rejection by another active operation is itself stored, so that a retry gets the same answer. */
  function ConflictOp(b: Binding, profile: HostProfile, response: string): Op {
    Finished(Intent(b, profile), ResultFailed, response)
  }

  /** Retries of a finished operation, and rejections, are answered from the store. */
  predicate Answered(db: Db, profile: HostProfile, b: Binding) {
    Replays(db, profile, b) || (Conflicts(db, b) && (b.kind == Delete || ResourceExists(db, b.target)))
  }

  /** What every transaction promises: one permitted change, or none on an error. */
  ghost predicate Stepped(before: Db, c: Change, after: Db, failed: bool) {
    Permitted(before, c) && after == After(before, c) && Inv(after) && (failed ==> c == NOTHING)
  }

  function SandboxBinding(id: OpId, kind: OpType, sandbox: string, fingerprint: string): Binding {
    Binding(id, kind, SandboxTarget(sandbox), fingerprint)
  }

  /** A create's operation after its receipts were handed over. */
  function HandedOver(op: Op): Op {
    op.(progress := op.progress.(receipts := Acquisition.AdoptedAll(op.receipts)))
  }

  const NOT_APPLICABLE: Outcome := Outcome(NotApplicable, None, "", EvidenceUnknown, None, None, None)

  /** A condition to record, or a kind of condition to clear. */
  datatype ConditionChange = Upsert(condition: Condition) | Clear(kind: string)

  /** The change of conditions that a Sandbox or a pair takes, exactly as its mutators do. */
  predicate SandboxTakes(v: Sandboxes.SandboxValue, change: ConditionChange) {
    match change
    case Upsert(condition) => condition.Valid()
    case Clear(kind) => !Blank(kind) && !HasNul(kind)
  }

  predicate PairTakes(p: ContainerAttempts.Pair, change: ConditionChange) {
    match change
    case Upsert(condition) => condition.Valid()
    case Clear(kind) => ContainerAttempts.CanClearCondition(p, kind)
  }

  function Changed(conditions: seq<Condition>, change: ConditionChange): seq<Condition> {
    match change
    case Upsert(condition) => Upserted(conditions, condition)
    case Clear(kind) => Without(conditions, kind)
  }

  /** Whether a resource is there and takes a change of its conditions. */
  predicate ResourceTakes(db: Db, t: Target, change: ConditionChange) {
    match t.kind
    case TargetSandbox => t.id in db.sandboxes && SandboxTakes(db.sandboxes[t.id].value, change)
    case TargetContainer => t.id in db.pairs && PairTakes(db.pairs[t.id].value, change)
    case TargetAttempt => false
  }

  /** The resource with its conditions changed; the phase stays. */
  function ConditionsPut(db: Db, t: Target, change: ConditionChange): ResChange
    requires ResourceTakes(db, t, change)
  {
    if t.kind == TargetSandbox then
      var rec := db.sandboxes[t.id];
      PutSandbox(t.id, rec.(value := Sandboxes.WithConditions(rec.value, Changed(rec.value.status.conditions, change))))
    else
      var rec := db.pairs[t.id];
      PutPair(t.id, rec.(value := ContainerAttempts.WithConditions(rec.value, Changed(rec.value.attempt.conditions, change))))
  }

  /** What a confirmation writes into a pair: its process, its streams and its new phase. */
  predicate Confirms(p: ContainerAttempts.Pair, identity: Option<ProcessIdentity>, streams: Streams, to: AttemptPhase) {
    && (identity.Some? ==> ContainerAttempts.CanSetProcess(p, identity.value))
    && streams.Valid()
    && ContainerAttempts.CanTransition(Equipped(p, identity, streams), to, PENDING)
  }

  function Equipped(p: ContainerAttempts.Pair, identity: Option<ProcessIdentity>, streams: Streams): ContainerAttempts.Pair {
    ContainerAttempts.WithStreams(if identity.Some? then ContainerAttempts.WithProcess(p, identity.value) else p, streams)
  }

  function Confirmed(p: ContainerAttempts.Pair, identity: Option<ProcessIdentity>, streams: Streams, to: AttemptPhase): ContainerAttempts.Pair {
    ContainerAttempts.Transitioned(Equipped(p, identity, streams), to, PENDING)
  }

  /** What a terminal record writes into a pair: all its conditions and its outcome. */
  predicate Stops(p: ContainerAttempts.Pair, conditions: seq<Condition>, o: Outcome) {
    && ContainerAttempts.CanSetConditions(p, conditions)
    && ContainerAttempts.CanTransition(ContainerAttempts.WithConditions(p, conditions), AttemptStopped, o)
  }

  function StoppedPair(p: ContainerAttempts.Pair, conditions: seq<Condition>, o: Outcome): ContainerAttempts.Pair {
    ContainerAttempts.Transitioned(ContainerAttempts.WithConditions(p, conditions), AttemptStopped, o)
  }

  /** A start that ended: the workload never ran, or it ran and stopped. */
  predicate EndsStart(p: ContainerAttempts.Pair, conditions: seq<Condition>, o: Outcome) {
    && ContainerAttempts.CanSetConditions(p, conditions)
    && var q := ContainerAttempts.WithConditions(p, conditions);
       if o.presence == NotApplicable then ContainerAttempts.CanTransition(q, AttemptStopped, o)
       else
         && ContainerAttempts.CanTransition(q, AttemptRunning, PENDING)
         && ContainerAttempts.CanTransition(ContainerAttempts.Transitioned(q, AttemptRunning, PENDING), AttemptStopped, o)
  }

  function EndedPair(p: ContainerAttempts.Pair, conditions: seq<Condition>, o: Outcome): ContainerAttempts.Pair {
    var q := ContainerAttempts.WithConditions(p, conditions);
    if o.presence == NotApplicable then ContainerAttempts.Transitioned(q, AttemptStopped, o)
    else ContainerAttempts.Transitioned(ContainerAttempts.Transitioned(q, AttemptRunning, PENDING), AttemptStopped, o)
  }

  /** A create whose rollback is done: the failure is recorded and the Attempt stops without having run. */
  function FailedPair(p: ContainerAttempts.Pair, failure: Condition): ContainerAttempts.Pair {
    ContainerAttempts.Transitioned(
      ContainerAttempts.WithConditions(p, Upserted(p.attempt.conditions, failure)), AttemptStopped, NOT_APPLICABLE)
  }

  function StoppedRec(rec: PairRec, conditions: seq<Condition>, o: Outcome): PairRec {
    rec.(value := StoppedPair(rec.value, conditions, o))
  }

  function EndedRec(rec: PairRec, conditions: seq<Condition>, o: Outcome): PairRec {
    rec.(value := EndedPair(rec.value, conditions, o))
  }

  function FailedRec(rec: PairRec, failure: Condition): PairRec {
    rec.(value := FailedPair(rec.value, failure))
  }

  /** A Created Attempt that is deleted never ran. */
  function NeverRan(rec: PairRec): PairRec {
    rec.(value := ContainerAttempts.Transitioned(rec.value, AttemptStopped, NOT_APPLICABLE))
  }

  /** An exact repetition of a checkpoint. */
  predicate Unchanged(op: Op, stage: Stage, progress: Progress, change: Option<ConditionChange>) {
    op.stage == stage && op.progress == progress && change.None?
  }

  /** Each record of a checkpoint names another inverse that decodes. */
  predicate RollbackOk(rules: Rules, rs: seq<Acquisition.Record>) {
    && (forall i :: 0 <= i < |rs| ==>
          && (rs[i].succeeded ==> rs[i].started)
          && (rs[i].attempts == 0 ==> rs[i].lastError == "") && (rs[i].attempts > 0 ==> !Blank(rs[i].lastError))
          && ReceiptFromDescriptor(rules, rs[i].descriptor).Some?)
    && (forall i, j :: 0 <= i < j < |rs| ==> rs[i].descriptor.name != rs[j].descriptor.name)
  }

  /** Each receipt belongs to the operation, and each release to it too, one per provider and kind. */
  predicate JournalsOk(rules: Rules, id: OpId, t: Target, receipts: seq<Receipt>, releases: seq<Release>) {
    && (forall i :: 0 <= i < |receipts| ==>
          rules.Valid(receipts[i]) && receipts[i].owner.operation == id && receipts[i].owner.target == t)
    && (forall i :: 0 <= i < |releases| ==>
          rules.ReleaseValid(releases[i]) && releases[i].cleanup == id && releases[i].resource.owner.target == t)
    && (forall i, j :: 0 <= i < j < |releases| ==>
          !(releases[i].resource.provider == releases[j].resource.provider && releases[i].resource.kind == releases[j].resource.kind))
  }

  /** What a checkpoint request must meet before anything is read. */
  predicate CheckpointOk(rules: Rules, id: OpId, t: Target, stage: Stage, progress: Progress, change: Option<ConditionChange>) {
    && stage.IsCheckpoint()
    && (change.Some? && change.value.Upsert? ==> change.value.condition.Valid())
    && (progress.cause.Some? <==> stage == Rollback)
    && (progress.baseline.Some? ==> t.kind == TargetContainer && (stage == AttachCgroup || stage == Rollback))
    && (progress.deadline.Some? ==> t.kind == TargetContainer && (stage == SignalProcess || stage == ObserveProcess))
    && RollbackOk(rules, progress.rollback)
    && JournalsOk(rules, id, t, progress.receipts, progress.releases)
    && (progress.releases != [] ==>
          stage == Teardown || stage == Transition || stage == PersistState || stage == PersistResult || stage == Rollback)
  }

  /** The receipts all come from one acquisition and have been handed over. */
  predicate OneAdoptedOwner(rs: seq<Receipt>) {
    forall i :: 0 <= i < |rs| ==> rs[i].adopted && rs[i].owner == rs[0].owner
  }

  /** The states and changes so far are a run that ends in the current records. */
  ghost predicate Logged(run: seq<Db>, changes: seq<Change>, db: Db) {
    IsRun(run, changes) && run[|changes|] == db
  }

  lemma LoggedGrows(run: seq<Db>, changes: seq<Change>, db: Db, c: Change)
    requires Logged(run, changes, db) && Permitted(db, c)
    ensures Logged(run + [After(db, c)], changes + [c], After(db, c))
  {
    hide Permitted, After;
    var r, cs := run + [After(db, c)], changes + [c];
    forall i | 0 <= i < |cs|
      ensures Permitted(r[i], cs[i]) && r[i + 1] == After(r[i], cs[i])
    {
      if i < |changes| {
        assert Permitted(run[i], changes[i]) && run[i + 1] == After(run[i], changes[i]);
      }
    }
  }

  class Coordinator {
    const profile: HostProfile
    const rules: Rules
    const aggregates: Aggregates
    var db: Db

    /** Every state of the records so far, and the change that led to the next. */
    ghost var run: seq<Db>
    ghost var changes: seq<Change>

    /** The records are the end of a run, keep all invariants, and hold valid aggregates only. */
    ghost predicate Valid()
      reads this
    {
      Inv(db) && AggregatesValid(aggregates, db) && Logged(run, changes, db)
    }

    constructor (profile: HostProfile, rules: Rules, aggregates: Aggregates)
      ensures this.profile == profile && this.rules == rules && this.aggregates == aggregates && db == EMPTY && Valid()
    {
      this.profile, this.rules, this.aggregates, db := profile, rules, aggregates, EMPTY;
      run, changes := [EMPTY], [];
      EmptyInv();
    }

    /** Whatever calls were made, no target has two active operations. */
    lemma OneActive(i: OpId, j: OpId)
      requires Valid() && i in db.ops && j in db.ops
      requires db.ops[i].state == Running && db.ops[j].state == Running && db.ops[i].binding.target == db.ops[j].binding.target
      ensures i == j
    {
      hide Inv, AggregatesValid;
      OneActiveOperation(run, changes, |changes|, i, j);
    }

    /** Whatever calls were made, Creating means an active create. */
    lemma CreatingIffCreate(id: string)
      requires Valid()
      ensures id in db.sandboxes && db.sandboxes[id].phase == SandboxCreating <==> HasActiveCreate(db, SandboxTarget(id))
      ensures id in db.pairs && db.pairs[id].phase == AttemptCreating <==> HasActiveCreate(db, ContainerTarget(id))
    {
      hide Inv, AggregatesValid;
      CreatingIffActiveCreate(run, changes, |changes|, id);
    }

    /** What was terminal at any earlier point is still there, unchanged. */
    lemma TerminalStays(k: nat, id: OpId)
      requires Valid() && k < |run| && id in run[k].ops && run[k].ops[id].state != Running
      ensures id in db.ops && db.ops[id] == run[k].ops[id]
    {
      hide Inv, AggregatesValid;
      OutcomesAreImmutable(run, changes, k, |changes|, id);
    }

    /** Every stored aggregate meets its whole invariant. */
    lemma StoredIsValid(id: string)
      requires Valid()
      ensures id in db.sandboxes ==> Sandboxes.Valid(aggregates.ForSandbox(), db.sandboxes[id].value)
      ensures id in db.pairs ==> ContainerAttempts.Valid(aggregates.ForPair(), db.pairs[id].value)
    {
      hide Inv, Logged;
      assert id in db.sandboxes ==> SandboxOk(aggregates, id, db.sandboxes[id]);
      assert id in db.pairs ==> PairOk(aggregates, id, db.pairs[id]);
    }

    /** One transaction takes effect as a whole. */
    method Commit(c: Change)
      requires Valid() && Permitted(db, c) && ResValid(aggregates, c.res)
      modifies this
      ensures db == After(old(db), c) && Valid() && old(run) <= run
    {
      hide Inv, Permitted, After, AggregatesValid, Logged, ResValid;
      InvKept(db, c);
      AggregatesKept(aggregates, db, c);
      LoggedGrows(run, changes, db, c);
      db := After(db, c);
      run, changes := run + [db], changes + [c];
    }

    /** Retry, resume, mismatch or new; a conflict with another active operation is stored as a failed operation. */
    method ResolveOperation(b: Binding, response: string) returns (r: Result<Resolution, Error>, ghost c: Change)
      requires Valid() && (b.kind == Create ==> b.target.kind != TargetAttempt)
      modifies this
      ensures Valid() && old(run) <= run && Stepped(old(db), c, db, r.Err?)
      ensures r == Ok(New) <==> IsNew(old(db), b)
      ensures r == Ok(Resume) <==> Resumes(old(db), profile, b)
      ensures r == Ok(Replay) <==> Answered(old(db), profile, b)
      ensures Conflicts(old(db), b) && r == Ok(Replay) ==> c == Change(Some(ConflictOp(b, profile, response)), KeepRes)
      ensures !Conflicts(old(db), b) || r != Ok(Replay) ==> c == NOTHING && db == old(db)
      ensures b.id !in old(db).ops ==>
                if !HasActive(old(db), b.target) then r == Ok(New)
                else if b.kind == Delete || ResourceExists(old(db), b.target) then
                  r == Ok(Replay) && b.id in db.ops && db.ops[b.id].state == Failed && db.ops[b.id].response == response
                else r == Err(NotFoundError)
      ensures b.id in old(db).ops ==>
                var op := old(db).ops[b.id];
                if op.profile != profile then r == Err(ProfileMismatch)
                else if op.binding != b then r == Err(BindingMismatch)
                else r == Ok(if op.state == Running then Resume else Replay)
    {
      hide Inv, AggregatesValid, Logged;
      c := NOTHING;
      if b.id in db.ops {
        var op := db.ops[b.id];
        if op.profile != profile {
          return Err(ProfileMismatch), c;
        }
        if op.binding != b {
          return Err(BindingMismatch), c;
        }
        return Ok(if op.state == Running then Resume else Replay), c;
      }
      if HasActive(db, b.target) {
        if b.kind != Delete && !ResourceExists(db, b.target) {
          return Err(NotFoundError), c;
        }
        var change := Change(Some(ConflictOp(b, profile, response)), KeepRes);
        c := change;
        Commit(change);
        return Ok(Replay), c;
      }
      r := Ok(New);
    }

    /** Stores a creating Sandbox with its intent, or finds the very same Sandbox already Ready. */
    method BeginSandboxCreate(id: OpId, sandbox: string, spec: string, fingerprint: string, response: string)
      returns (r: Result<Resolution, Error>, ghost c: Change)
      requires Valid()
      modifies this
      ensures Valid() && old(run) <= run && Stepped(old(db), c, db, r.Err?)
      ensures var b := SandboxBinding(id, Create, sandbox, fingerprint);
              && (r == Ok(Replay) <==> Answered(old(db), profile, b))
              && (r == Ok(Resume) <==> Resumes(old(db), profile, b))
              && (r == Ok(New) <==>
                    && IsNew(old(db), b)
                    && if sandbox in old(db).sandboxes then
                         old(db).sandboxes[sandbox].phase == SandboxReady && old(db).sandboxes[sandbox].spec == spec
                       else aggregates.idOk(sandbox) && aggregates.sandboxSpecOk(spec))
              && (r == Ok(Resume) ==> c == NOTHING && sandbox in db.sandboxes && db.sandboxes[sandbox].phase == SandboxCreating)
              && (r == Ok(New) ==>
                    c == if sandbox in old(db).sandboxes
                         then Change(Some(Finished(Intent(b, profile), ResultNoop, response)), KeepRes)
                         else Change(Some(Intent(b, profile)), PutSandbox(sandbox, SandboxRec(Sandboxes.NewSandbox(sandbox, spec), []))))
    {
      hide Inv, AggregatesValid, Logged, After, HasActive, HasActivePair, HasPair, TeardownOrder.Covers;
      NothingHappens(db);
      var b := SandboxBinding(id, Create, sandbox, fingerprint);
      r, c := ResolveOperation(b, response);
      if r.Err? || r.value == Replay {
        return;
      }
      if r.value == Resume {
        ActiveCreateShows(db, b);
        return;
      }
      if sandbox in db.sandboxes {
        var existing := db.sandboxes[sandbox];
        if existing.phase != SandboxReady || existing.spec != spec {
          return Err(AlreadyExistsError), c;
        }
        c := Apply(Change(Some(Finished(Intent(b, profile), ResultNoop, response)), KeepRes));
      } else {
        if !aggregates.idOk(sandbox) || !aggregates.sandboxSpecOk(spec) {
          return Err(Rejected), c;
        }
        Sandboxes.NewIsValid(aggregates.ForSandbox(), sandbox, spec);
        c := Apply(Change(Some(Intent(b, profile)), PutSandbox(sandbox, SandboxRec(Sandboxes.NewSandbox(sandbox, spec), []))));
      }
    }

    /** A verified Sandbox moves along one edge and its operation succeeds, in one step; a create hands its receipts over. */
    method ConfirmSandboxTransition(b: Binding, verified: bool, from: SandboxPhase, to: SandboxPhase, response: string)
      returns (r: Result<Resolution, Error>, ghost c: Change)
      requires Valid() && b.target.kind == TargetSandbox
      requires (b.kind == Create && from == SandboxCreating && to == SandboxReady)
               || (b.kind == Stop && from == SandboxStopping && to == SandboxStopped)
      modifies this
      ensures Valid() && old(run) <= run && Stepped(old(db), c, db, r.Err?)
      ensures r != Ok(New)
      ensures r == Ok(Replay) <==> verified && Answered(old(db), profile, b)
      ensures r == Ok(Resume) <==>
                && verified && Resumes(old(db), profile, b)
                && var op := old(db).ops[b.id];
                   && StartOrder.StageReached(profile, op.stage, if b.kind == Create then PrepareNamespaces else ObserveProcess)
                   && b.target.id in old(db).sandboxes && old(db).sandboxes[b.target.id].phase == from
                   && (b.kind == Create ==> forall i :: 0 <= i < |op.receipts| ==> rules.Valid(op.receipts[i]))
      ensures r == Ok(Resume) ==>
                var op, rec := old(db).ops[b.id], old(db).sandboxes[b.target.id];
                var moved := Sandboxes.WithPhase(rec.value, to);
                c == if b.kind == Create
                     then Change(Some(Finished(HandedOver(op), ResultSucceeded, response)),
                                 PutSandbox(b.target.id, SandboxRec(moved, Acquisition.AdoptedAll(op.receipts))))
                     else Change(Some(Finished(op, ResultSucceeded, response)), PutSandbox(b.target.id, rec.(value := moved)))
    {
      hide Inv, AggregatesValid, Logged, After, HasActive, HasActivePair, HasPair, TeardownOrder.Covers, Rules.Valid, ContainerAttempts.Valid, Sandboxes.Valid, PairOk, AttemptEdge;
      NothingHappens(db);
      c := NOTHING;
      if !verified {
        return Err(VerificationRequired), c;
      }
      r, c := ResolveOperation(b, response);
      if r.Err? || r.value == Replay {
        return;
      }
      if r.value == New {
        return Err(NotFoundError), c;
      }
      var op := db.ops[b.id];
      if !StartOrder.StageReached(profile, op.stage, if b.kind == Create then PrepareNamespaces else ObserveProcess) {
        return Err(Precondition), c;
      }
      if b.target.id !in db.sandboxes {
        return Err(NotFoundError), c;
      }
      var rec := db.sandboxes[b.target.id];
      if rec.phase != from || !SandboxEdge(rec.phase, to) {
        return Err(Precondition), c;
      }
      SandboxIsOk(aggregates, db, b.target.id);
      Sandboxes.ChangesAreValid(aggregates.ForSandbox(), rec.value);
      rec := rec.(value := Sandboxes.WithPhase(rec.value, to));
      if b.kind == Create {
        if exists i :: 0 <= i < |op.receipts| && !rules.Valid(op.receipts[i]) {
          return Err(Rejected), c;
        }
        op := HandedOver(op);
        rec := rec.(resources := op.receipts);
      }
      c := Apply(Change(Some(Finished(op, ResultSucceeded, response)), PutSandbox(b.target.id, rec)));
    }

    /** Stop begins on a Ready Sandbox without an active Attempt, and is a no-op on a Stopped one. */
    method BeginSandboxStop(b: Binding, response: string) returns (r: Result<Resolution, Error>, ghost c: Change)
      requires Valid() && b.target.kind == TargetSandbox && b.kind == Stop
      modifies this
      ensures Valid() && old(run) <= run && Stepped(old(db), c, db, r.Err?)
      ensures r == Ok(Replay) <==> Answered(old(db), profile, b)
      ensures r == Ok(Resume) <==> Resumes(old(db), profile, b) && b.target.id in old(db).sandboxes
      ensures r == Ok(New) <==>
                && IsNew(old(db), b) && b.target.id in old(db).sandboxes
                && var phase := old(db).sandboxes[b.target.id].phase;
                   phase == SandboxStopped || (phase == SandboxReady && !HasActivePair(old(db), b.target.id))
      ensures r == Ok(Resume) ==> c == NOTHING
      ensures r == Ok(New) ==>
                var rec := old(db).sandboxes[b.target.id];
                c == if rec.phase == SandboxStopped
                     then Change(Some(Finished(Intent(b, profile), ResultNoop, response)), KeepRes)
                     else Change(Some(Intent(b, profile)), PutSandbox(b.target.id, rec.(value := Sandboxes.WithPhase(rec.value, SandboxStopping))))
    {
      hide Inv, AggregatesValid, Logged, After, HasActive, HasActivePair, HasPair, TeardownOrder.Covers;
      NothingHappens(db);
      r, c := ResolveOperation(b, response);
      if r.Err? || r.value == Replay {
        return;
      }
      if b.target.id !in db.sandboxes {
        return Err(NotFoundError), c;
      }
      if r.value == Resume {
        return;
      }
      var rec := db.sandboxes[b.target.id];
      if rec.phase == SandboxStopped {
        c := Apply(Change(Some(Finished(Intent(b, profile), ResultNoop, response)), KeepRes));
        return;
      }
      if rec.phase != SandboxReady || HasActivePair(db, b.target.id) {
        return Err(Precondition), c;
      }
      SandboxIsOk(aggregates, db, b.target.id);
      Sandboxes.ChangesAreValid(aggregates.ForSandbox(), rec.value);
      c := Apply(Change(Some(Intent(b, profile)), PutSandbox(b.target.id, rec.(value := Sandboxes.WithPhase(rec.value, SandboxStopping)))));
    }

    /** Removal begins on a Stopped Sandbox without pairs, or where there is no Sandbox at all. */
    method BeginSandboxRemove(b: Binding, response: string) returns (r: Result<Resolution, Error>, ghost c: Change)
      requires Valid() && b.target.kind == TargetSandbox && b.kind == Delete
      modifies this
      ensures Valid() && old(run) <= run && Stepped(old(db), c, db, r.Err?)
      ensures r == Ok(Replay) <==> Answered(old(db), profile, b)
      ensures r == Ok(Resume) <==> Resumes(old(db), profile, b)
      ensures r == Ok(New) <==>
                && IsNew(old(db), b)
                && (b.target.id in old(db).sandboxes ==>
                      old(db).sandboxes[b.target.id].phase == SandboxStopped && !HasPair(old(db), b.target.id))
      ensures r == Ok(Resume) ==> c == NOTHING
      ensures r == Ok(New) ==> c == Change(Some(Intent(b, profile)), KeepRes)
    {
      hide Inv, AggregatesValid, Logged, After, HasActive, HasActivePair, HasPair, TeardownOrder.Covers;
      NothingHappens(db);
      r, c := ResolveOperation(b, response);
      if r.Err? || r.value != New {
        return;
      }
      if b.target.id in db.sandboxes && (db.sandboxes[b.target.id].phase != SandboxStopped || HasPair(db, b.target.id)) {
        return Err(Precondition), c;
      }
      c := Apply(Change(Some(Intent(b, profile)), KeepRes));
    }

    /** Metadata goes only when every adopted resource has its proof of absence and no pair is left. */
    method ConfirmSandboxRemove(b: Binding, verified: bool, response: string)
      returns (r: Result<Resolution, Error>, ghost c: Change)
      requires Valid() && b.target.kind == TargetSandbox && b.kind == Delete
      modifies this
      ensures Valid() && old(run) <= run && Stepped(old(db), c, db, r.Err?)
      ensures r != Ok(New)
      ensures r == Ok(Replay) <==> verified && Answered(old(db), profile, b)
      ensures r == Ok(Resume) <==>
                && verified && Resumes(old(db), profile, b)
                && var releases := old(db).ops[b.id].releases;
                   if b.target.id !in old(db).sandboxes then releases == []
                   else
                     var rec := old(db).sandboxes[b.target.id];
                     rec.phase == SandboxStopped && !HasPair(old(db), b.target.id) && TeardownOrder.Covers(releases, rec.resources)
      ensures r == Ok(Resume) ==>
                var op := old(db).ops[b.id];
                c == if b.target.id !in old(db).sandboxes then Change(Some(Finished(op, ResultNoop, response)), KeepRes)
                     else Change(Some(Finished(op, ResultSucceeded, response)), DropSandbox(b.target.id))
    {
      hide Inv, AggregatesValid, Logged, After, HasActive, HasActivePair, HasPair, TeardownOrder.Covers;
      NothingHappens(db);
      c := NOTHING;
      if !verified {
        return Err(VerificationRequired), c;
      }
      r, c := ResolveOperation(b, response);
      if r.Err? || r.value == Replay {
        return;
      }
      if r.value == New {
        return Err(NotFoundError), c;
      }
      var op := db.ops[b.id];
      if b.target.id !in db.sandboxes {
        if op.releases != [] {
          return Err(Precondition), c;
        }
        c := Apply(Change(Some(Finished(op, ResultNoop, response)), KeepRes));
        return;
      }
      var rec := db.sandboxes[b.target.id];
      if rec.phase != SandboxStopped || HasPair(db, b.target.id) {
        return Err(Precondition), c;
      }
      var complete := TeardownOrder.ValidateCompleteCleanupReleases(op.releases, rec.resources);
      if !complete {
        return Err(Precondition), c;
      }
      c := Apply(Change(Some(Finished(op, ResultSucceeded, response)), DropSandbox(b.target.id)));
    }

    /** Stores a creating pair in a Ready Sandbox without an active Attempt, and makes it the current one. */
    method BeginContainerCreate(b: Binding, sandbox: string, attempt: string, spec: string, response: string)
      returns (r: Result<Resolution, Error>, ghost c: Change)
      requires Valid() && b.target.kind == TargetContainer && b.kind == Create
      modifies this
      ensures Valid() && old(run) <= run && Stepped(old(db), c, db, r.Err?)
      ensures r == Ok(Replay) <==> Answered(old(db), profile, b)
      ensures r == Ok(Resume) <==> Resumes(old(db), profile, b)
      ensures r == Ok(Resume) ==> c == NOTHING && b.target.id in db.pairs && db.pairs[b.target.id].phase == AttemptCreating
      ensures r == Ok(New) <==>
                && IsNew(old(db), b)
                && if b.target.id in old(db).pairs then
                     var p := old(db).pairs[b.target.id];
                     p.sandbox == sandbox && p.attempt == attempt && p.spec == spec && OneAdoptedOwner(p.resources)
                   else
                     && aggregates.idOk(b.target.id) && aggregates.idOk(attempt) && aggregates.containerSpecOk(spec)
                     && sandbox in old(db).sandboxes && old(db).sandboxes[sandbox].phase == SandboxReady
                     && !HasActivePair(old(db), sandbox)
      ensures r == Ok(New) ==>
                c == if b.target.id in old(db).pairs then Change(Some(Finished(Intent(b, profile), ResultNoop, response)), KeepRes)
                     else Change(Some(Intent(b, profile)),
                                 NewPair(b.target.id, PairRec(ContainerAttempts.NewPair(b.target.id, attempt, sandbox, spec), [])))
    {
      hide Inv, AggregatesValid, Logged, After, HasActive, HasActivePair, HasPair, TeardownOrder.Covers;
      NothingHappens(db);
      r, c := ResolveOperation(b, response);
      if r.Err? || r.value == Replay {
        return;
      }
      if r.value == Resume {
        ActiveCreateShows(db, b);
        return;
      }
      if b.target.id in db.pairs {
        var p := db.pairs[b.target.id];
        if p.sandbox != sandbox || p.attempt != attempt || p.spec != spec {
          return Err(AlreadyExistsError), c;
        }
        if !OneAdoptedOwner(p.resources) {
          return Err(Rejected), c;
        }
        c := Apply(Change(Some(Finished(Intent(b, profile), ResultNoop, response)), KeepRes));
        return;
      }
      if sandbox !in db.sandboxes {
        return Err(NotFoundError), c;
      }
      if HasActivePair(db, sandbox) || db.sandboxes[sandbox].phase != SandboxReady {
        return Err(Precondition), c;
      }
      if !aggregates.idOk(b.target.id) || !aggregates.idOk(attempt) || !aggregates.containerSpecOk(spec) {
        return Err(Rejected), c;
      }
      SandboxIsOk(aggregates, db, sandbox);
      ContainerAttempts.NewIsValid(aggregates.ForPair(), b.target.id, attempt, sandbox, spec);
      c := Apply(Change(Some(Intent(b, profile)),
                        NewPair(b.target.id, PairRec(ContainerAttempts.NewPair(b.target.id, attempt, sandbox, spec), []))));
    }

    /** A verified Attempt moves along one edge and its operation succeeds, in one step; a create hands its receipts over. */
    method ConfirmContainerTransition(b: Binding, verified: bool, identity: Option<ProcessIdentity>, streams: Streams,
                                      from: AttemptPhase, to: AttemptPhase, response: string)
      returns (r: Result<Resolution, Error>, ghost c: Change)
      requires Valid() && b.target.kind == TargetContainer
      requires (b.kind == Create && from == AttemptCreating && to == AttemptCreated)
               || (b.kind == Start && from == AttemptCreated && to == AttemptRunning)
      modifies this
      ensures Valid() && old(run) <= run && Stepped(old(db), c, db, r.Err?)
      ensures r != Ok(New)
      ensures r == Ok(Replay) <==> verified && (b.kind == Start ==> identity.Some?) && Answered(old(db), profile, b)
      ensures r == Ok(Resume) <==>
                && verified && (b.kind == Start ==> identity.Some?) && Resumes(old(db), profile, b)
                && var op := old(db).ops[b.id];
                   && StartOrder.StageReached(profile, op.stage, if b.kind == Create then AttachCgroup else ObserveProcess)
                   && b.target.id in old(db).pairs && old(db).pairs[b.target.id].phase == from
                   && Confirms(old(db).pairs[b.target.id].value, identity, streams, to)
                   && (b.kind == Create ==>
                         && (forall i :: 0 <= i < |op.receipts| ==> rules.Valid(op.receipts[i]))
                         && OneAdoptedOwner(Acquisition.AdoptedAll(op.receipts)))
      ensures r == Ok(Resume) ==>
                var op, rec := old(db).ops[b.id], old(db).pairs[b.target.id];
                var moved := Confirmed(rec.value, identity, streams, to);
                c == if b.kind == Create
                     then Change(Some(Finished(HandedOver(op), ResultSucceeded, response)),
                                 PutPair(b.target.id, PairRec(moved, Acquisition.AdoptedAll(op.receipts))))
                     else Change(Some(Finished(op, ResultSucceeded, response)), PutPair(b.target.id, rec.(value := moved)))
    {
      hide Inv, AggregatesValid, Logged, After, HasActive, HasActivePair, HasPair, TeardownOrder.Covers, Rules.Valid, OneAdoptedOwner, Confirms, Confirmed, ContainerAttempts.Valid, SandboxOk, SandboxEdge;
      NothingHappens(db);
      c := NOTHING;
      if !verified || (b.kind == Start && identity.None?) {
        return Err(VerificationRequired), c;
      }
      r, c := ResolveOperation(b, response);
      if r.Err? || r.value == Replay {
        return;
      }
      if r.value == New {
        return Err(NotFoundError), c;
      }
      var op := db.ops[b.id];
      if !StartOrder.StageReached(profile, op.stage, if b.kind == Create then AttachCgroup else ObserveProcess) {
        return Err(Precondition), c;
      }
      if b.target.id !in db.pairs {
        return Err(NotFoundError), c;
      }
      var rec := db.pairs[b.target.id];
      if rec.phase != from {
        return Err(Precondition), c;
      }
      if !Confirms(rec.value, identity, streams, to) {
        return Err(Rejected), c;
      }
      PairIsOk(aggregates, db, b.target.id);
      ConfirmedIsValid(aggregates, rec.value, identity, streams, to);
      rec := rec.(value := Confirmed(rec.value, identity, streams, to));
      if b.kind == Create {
        if exists i :: 0 <= i < |op.receipts| && !rules.Valid(op.receipts[i]) {
          return Err(Rejected), c;
        }
        op := HandedOver(op);
        rec := rec.(resources := op.receipts);
        if !OneAdoptedOwner(rec.resources) {
          return Err(Rejected), c;
        }
      }
      c := Apply(Change(Some(Finished(op, ResultSucceeded, response)), PutPair(b.target.id, rec)));
    }

    /** Start begins on a Created Attempt, and is a no-op on a Running one. */
    method BeginContainerStart(b: Binding, response: string) returns (r: Result<Resolution, Error>, ghost c: Change)
      requires Valid() && b.target.kind == TargetContainer && b.kind == Start
      modifies this
      ensures Valid() && old(run) <= run && Stepped(old(db), c, db, r.Err?)
      ensures r == Ok(Replay) <==> Answered(old(db), profile, b)
      ensures r == Ok(Resume) <==> Resumes(old(db), profile, b) && b.target.id in old(db).pairs
      ensures r == Ok(New) <==>
                && IsNew(old(db), b) && b.target.id in old(db).pairs
                && (old(db).pairs[b.target.id].phase == AttemptRunning || old(db).pairs[b.target.id].phase == AttemptCreated)
      ensures r == Ok(Resume) ==> c == NOTHING
      ensures r == Ok(New) ==>
                c == Change(Some(if old(db).pairs[b.target.id].phase == AttemptCreated then Intent(b, profile)
                                 else Finished(Intent(b, profile), ResultNoop, response)), KeepRes)
    {
      hide Inv, AggregatesValid, Logged, After, HasActive, HasActivePair, HasPair, TeardownOrder.Covers;
      NothingHappens(db);
      r, c := ResolveOperation(b, response);
      if r.Err? || r.value == Replay {
        return;
      }
      if b.target.id !in db.pairs {
        return Err(NotFoundError), c;
      }
      if r.value == Resume {
        return;
      }
      if db.pairs[b.target.id].phase == AttemptRunning {
        c := Apply(Change(Some(Finished(Intent(b, profile), ResultNoop, response)), KeepRes));
        return;
      }
      if db.pairs[b.target.id].phase != AttemptCreated {
        return Err(Precondition), c;
      }
      c := Apply(Change(Some(Intent(b, profile)), KeepRes));
    }

    /** Deletion begins on a Created or Stopped Attempt, which is Stopped from then on, or where there is no pair at all. */
    method BeginContainerDelete(b: Binding, response: string) returns (r: Result<Resolution, Error>, ghost c: Change)
      requires Valid() && b.target.kind == TargetContainer && b.kind == Delete
      modifies this
      ensures Valid() && old(run) <= run && Stepped(old(db), c, db, r.Err?)
      ensures r == Ok(Replay) <==> Answered(old(db), profile, b)
      ensures r == Ok(Resume) <==> Resumes(old(db), profile, b)
      ensures r == Ok(New) <==>
                && IsNew(old(db), b)
                && (b.target.id in old(db).pairs ==>
                      old(db).pairs[b.target.id].phase == AttemptCreated || old(db).pairs[b.target.id].phase == AttemptStopped)
      ensures r == Ok(Resume) ==> c == NOTHING
      ensures r == Ok(New) ==>
                c == Change(Some(Intent(b, profile)),
                            if b.target.id in old(db).pairs && old(db).pairs[b.target.id].phase == AttemptCreated
                            then PutPair(b.target.id, NeverRan(old(db).pairs[b.target.id])) else KeepRes)
    {
      hide Inv, AggregatesValid, Logged, After, HasActive, HasActivePair, HasPair, TeardownOrder.Covers;
      NothingHappens(db);
      r, c := ResolveOperation(b, response);
      if r.Err? || r.value != New {
        return;
      }
      if b.target.id !in db.pairs || db.pairs[b.target.id].phase == AttemptStopped {
        c := Apply(Change(Some(Intent(b, profile)), KeepRes));
        return;
      }
      var rec := db.pairs[b.target.id];
      if rec.phase != AttemptCreated {
        return Err(Precondition), c;
      }
      PairIsOk(aggregates, db, b.target.id);
      NeverRanIsValid(aggregates, rec);
      c := Apply(Change(Some(Intent(b, profile)), PutPair(b.target.id, NeverRan(rec))));
    }

    /** The pair goes, and the Sandbox stops naming it, only when every adopted resource has its proof of absence. */
    method ConfirmContainerDelete(b: Binding, verified: bool, response: string)
      returns (r: Result<Resolution, Error>, ghost c: Change)
      requires Valid() && b.target.kind == TargetContainer && b.kind == Delete
      modifies this
      ensures Valid() && old(run) <= run && Stepped(old(db), c, db, r.Err?)
      ensures r != Ok(New)
      ensures r == Ok(Replay) <==> verified && Answered(old(db), profile, b)
      ensures r == Ok(Resume) <==>
                && verified && Resumes(old(db), profile, b)
                && var releases := old(db).ops[b.id].releases;
                   if b.target.id !in old(db).pairs then releases == []
                   else
                     var rec := old(db).pairs[b.target.id];
                     rec.phase == AttemptStopped && TeardownOrder.Covers(releases, rec.resources) && OneAdoptedOwner(rec.resources)
      ensures r == Ok(Resume) ==>
                var op := old(db).ops[b.id];
                c == if b.target.id !in old(db).pairs then Change(Some(Finished(op, ResultNoop, response)), KeepRes)
                     else Change(Some(Finished(op, ResultSucceeded, response)), DropPair(b.target.id))
    {
      hide Inv, AggregatesValid, Logged, After, HasActive, HasActivePair, HasPair, TeardownOrder.Covers, OneAdoptedOwner;
      NothingHappens(db);
      c := NOTHING;
      if !verified {
        return Err(VerificationRequired), c;
      }
      r, c := ResolveOperation(b, response);
      if r.Err? || r.value == Replay {
        return;
      }
      if r.value == New {
        return Err(NotFoundError), c;
      }
      var op := db.ops[b.id];
      if b.target.id !in db.pairs {
        if op.releases != [] {
          return Err(Precondition), c;
        }
        c := Apply(Change(Some(Finished(op, ResultNoop, response)), KeepRes));
        return;
      }
      var rec := db.pairs[b.target.id];
      if rec.phase != AttemptStopped {
        return Err(Precondition), c;
      }
      var complete := TeardownOrder.ValidateCompleteCleanupReleases(op.releases, rec.resources);
      if !complete {
        return Err(Precondition), c;
      }
      if !OneAdoptedOwner(rec.resources) {
        return Err(Rejected), c;
      }
      PairIsPlaced(db, b.target.id);
      c := Apply(Change(Some(Finished(op, ResultSucceeded, response)), DropPair(b.target.id)));
    }

    /** Observation of a natural end begins on a Running Attempt. */
    method BeginRecordStopped(b: Binding, verified: bool, response: string) returns (r: Result<Resolution, Error>, ghost c: Change)
      requires Valid() && b.target.kind == TargetContainer && b.kind == Stop
      modifies this
      ensures Valid() && old(run) <= run && Stepped(old(db), c, db, r.Err?)
      ensures r == Ok(Replay) <==> verified && Answered(old(db), profile, b)
      ensures r == Ok(Resume) <==> verified && Resumes(old(db), profile, b) && b.target.id in old(db).pairs
      ensures r == Ok(New) <==>
                verified && IsNew(old(db), b) && b.target.id in old(db).pairs && old(db).pairs[b.target.id].phase == AttemptRunning
      ensures r == Ok(Resume) ==> c == NOTHING
      ensures r == Ok(New) ==> c == Change(Some(Intent(b, profile)), KeepRes)
    {
      hide Inv, AggregatesValid, Logged, After, HasActive, HasActivePair, HasPair, TeardownOrder.Covers;
      NothingHappens(db);
      c := NOTHING;
      if !verified {
        return Err(VerificationRequired), c;
      }
      r, c := ResolveOperation(b, response);
      if r.Err? || r.value == Replay {
        return;
      }
      if b.target.id !in db.pairs {
        return Err(NotFoundError), c;
      }
      if r.value == Resume {
        return;
      }
      if db.pairs[b.target.id].phase != AttemptRunning {
        return Err(Precondition), c;
      }
      c := Apply(Change(Some(Intent(b, profile)), KeepRes));
    }

    /** Stores a terminal outcome; on a Linux host only for an operation whose observation was checkpointed. */
    method RecordStopped(b: Binding, verified: bool, outcome: Outcome, conditions: seq<Condition>, response: string)
      returns (r: Result<Resolution, Error>, ghost c: Change)
      requires Valid() && b.target.kind == TargetContainer && b.kind == Stop
      modifies this
      ensures Valid() && old(run) <= run && Stepped(old(db), c, db, r.Err?)
      ensures r == Ok(Replay) <==> verified && outcome.Valid() && Answered(old(db), profile, b)
      ensures r == Ok(Resume) <==>
                && verified && outcome.Valid() && Resumes(old(db), profile, b)
                && StartOrder.StageReached(profile, old(db).ops[b.id].stage, ObserveProcess)
                && b.target.id in old(db).pairs && Stops(old(db).pairs[b.target.id].value, conditions, outcome)
      ensures r == Ok(New) <==>
                && verified && outcome.Valid() && profile == AbstractM1 && IsNew(old(db), b) && b.target.id in old(db).pairs
                && (|| old(db).pairs[b.target.id].phase == AttemptStopped
                    || Stops(old(db).pairs[b.target.id].value, conditions, outcome))
      ensures r == Ok(Resume) ==>
                c == Change(Some(Finished(old(db).ops[b.id], ResultSucceeded, response)),
                            PutPair(b.target.id, StoppedRec(old(db).pairs[b.target.id], conditions, outcome)))
      ensures r == Ok(New) ==>
                c == if old(db).pairs[b.target.id].phase == AttemptStopped
                     then Change(Some(Finished(Intent(b, profile), ResultNoop, response)), KeepRes)
                     else Change(Some(Finished(Intent(b, profile), ResultSucceeded, response)),
                                 PutPair(b.target.id, StoppedRec(old(db).pairs[b.target.id], conditions, outcome)))
    {
      hide Inv, AggregatesValid, Logged, After, HasActive, HasActivePair, HasPair, TeardownOrder.Covers, Stops, StoppedPair, Outcome.Valid, StartOrder.StageReached, ContainerAttempts.Valid, SandboxOk, SandboxEdge;
      NothingHappens(db);
      c := NOTHING;
      if !verified || !outcome.Valid() {
        return Err(VerificationRequired), c;
      }
      r, c := ResolveOperation(b, response);
      if r.Err? || r.value == Replay {
        return;
      }
      if r.value == New && profile == LinuxM2 {
        return Err(Precondition), c;
      }
      if r.value == Resume && !StartOrder.StageReached(profile, db.ops[b.id].stage, ObserveProcess) {
        return Err(Precondition), c;
      }
      if b.target.id !in db.pairs {
        return Err(NotFoundError), c;
      }
      var rec := db.pairs[b.target.id];
      StopsFromActive(rec.value, conditions, outcome);
      if rec.phase == AttemptStopped {
        if r.value != New {
          return Err(Precondition), c;
        }
        c := Apply(Change(Some(Finished(Intent(b, profile), ResultNoop, response)), KeepRes));
        return;
      }
      if !Stops(rec.value, conditions, outcome) {
        return Err(Rejected), c;
      }
      PairIsOk(aggregates, db, b.target.id);
      StoppedIsValid(aggregates, rec.value, conditions, outcome);
      var op := if r.value == New then Intent(b, profile) else db.ops[b.id];
      c := Apply(Change(Some(Finished(op, ResultSucceeded, response)), PutPair(b.target.id, StoppedRec(rec, conditions, outcome))));
    }

    /** Completes a start whose workload ended before Running could be confirmed. */
    method RecordContainerStartTerminal(b: Binding, verified: bool, outcome: Outcome, conditions: seq<Condition>, startFailed: bool, response: string)
      returns (r: Result<Resolution, Error>, ghost c: Change)
      requires Valid() && b.target.kind == TargetContainer && b.kind == Start
      modifies this
      ensures Valid() && old(run) <= run && Stepped(old(db), c, db, r.Err?)
      ensures r != Ok(New)
      ensures r == Ok(Resume) <==>
                && verified && outcome.Valid() && (outcome.presence == NotApplicable ==> startFailed)
                && Resumes(old(db), profile, b)
                && StartOrder.StageReached(profile, old(db).ops[b.id].stage, ObserveProcess)
                && b.target.id in old(db).pairs && old(db).pairs[b.target.id].phase == AttemptCreated
                && EndsStart(old(db).pairs[b.target.id].value, conditions, outcome)
      ensures r == Ok(Resume) ==>
                c == Change(Some(Finished(old(db).ops[b.id], if startFailed then ResultFailed else ResultSucceeded, response)),
                            PutPair(b.target.id, EndedRec(old(db).pairs[b.target.id], conditions, outcome)))
    {
      hide Inv, AggregatesValid, Logged, After, HasActive, HasActivePair, HasPair, TeardownOrder.Covers, EndsStart, EndedPair, Outcome.Valid, ContainerAttempts.Valid, Sandboxes.Valid, SandboxEdge, SandboxOk;
      NothingHappens(db);
      c := NOTHING;
      if !verified || !outcome.Valid() || (outcome.presence == NotApplicable && !startFailed) {
        return Err(VerificationRequired), c;
      }
      r, c := ResolveOperation(b, response);
      if r.Err? || r.value == Replay {
        return;
      }
      if r.value == New {
        return Err(NotFoundError), c;
      }
      if !StartOrder.StageReached(profile, db.ops[b.id].stage, ObserveProcess) {
        return Err(Precondition), c;
      }
      if b.target.id !in db.pairs {
        return Err(NotFoundError), c;
      }
      var rec := db.pairs[b.target.id];
      if rec.phase != AttemptCreated {
        return Err(Precondition), c;
      }
      if !EndsStart(rec.value, conditions, outcome) {
        return Err(Rejected), c;
      }
      PairIsOk(aggregates, db, b.target.id);
      EndedIsValid(aggregates, rec.value, conditions, outcome);
      c := Apply(Change(Some(Finished(db.ops[b.id], if startFailed then ResultFailed else ResultSucceeded, response)),
                        PutPair(b.target.id, EndedRec(rec, conditions, outcome))));
    }

    /** A plan to kill a Running Attempt whose identity was just verified, or a no-op on a Stopped one. */
    method PlanKill(b: Binding, identityVerified: bool, response: string) returns (r: Result<Resolution, Error>, ghost c: Change)
      requires Valid() && b.target.kind == TargetContainer && b.kind == Kill
      modifies this
      ensures Valid() && old(run) <= run && Stepped(old(db), c, db, r.Err?)
      ensures r == Ok(Replay) <==> Answered(old(db), profile, b)
      ensures r == Ok(Resume) <==>
                && Resumes(old(db), profile, b) && identityVerified
                && b.target.id in old(db).pairs && old(db).pairs[b.target.id].phase == AttemptRunning
      ensures r == Ok(New) <==>
                && IsNew(old(db), b) && b.target.id in old(db).pairs
                && (old(db).pairs[b.target.id].phase == AttemptStopped
                    || (old(db).pairs[b.target.id].phase == AttemptRunning && identityVerified))
      ensures r == Ok(Resume) ==> c == NOTHING
      ensures r == Ok(New) ==>
                c == Change(Some(if old(db).pairs[b.target.id].phase == AttemptRunning then Intent(b, profile).(response := response)
                                 else Finished(Intent(b, profile), ResultNoop, response)), KeepRes)
    {
      hide Inv, AggregatesValid, Logged, After, HasActive, HasActivePair, HasPair, TeardownOrder.Covers;
      NothingHappens(db);
      r, c := ResolveOperation(b, response);
      if r.Err? || r.value == Replay {
        return;
      }
      if b.target.id !in db.pairs {
        return Err(NotFoundError), c;
      }
      var phase := db.pairs[b.target.id].phase;
      if r.value == New && phase == AttemptStopped {
        c := Apply(Change(Some(Finished(Intent(b, profile), ResultNoop, response)), KeepRes));
        return;
      }
      if phase != AttemptRunning || !identityVerified {
        return Err(Precondition), c;
      }
      if r.value == New {
        c := Apply(Change(Some(Intent(b, profile).(response := response)), KeepRes));
      }
    }

    /** Completes a planned kill once the Attempt is verified over. */
    method RecordKillStopped(b: Binding, verified: bool, outcome: Outcome, conditions: seq<Condition>, response: string)
      returns (r: Result<Resolution, Error>, ghost c: Change)
      requires Valid() && b.target.kind == TargetContainer && b.kind == Kill
      modifies this
      ensures Valid() && old(run) <= run && Stepped(old(db), c, db, r.Err?)
      ensures r != Ok(New)
      ensures r == Ok(Resume) <==>
                && verified && outcome.Valid() && Resumes(old(db), profile, b)
                && StartOrder.StageReached(profile, old(db).ops[b.id].stage, ObserveProcess)
                && b.target.id in old(db).pairs && old(db).pairs[b.target.id].phase == AttemptRunning
                && Stops(old(db).pairs[b.target.id].value, conditions, outcome)
      ensures r == Ok(Resume) ==>
                c == Change(Some(Finished(old(db).ops[b.id], ResultSucceeded, response)),
                            PutPair(b.target.id, StoppedRec(old(db).pairs[b.target.id], conditions, outcome)))
    {
      hide Inv, AggregatesValid, Logged, After, HasActive, HasActivePair, HasPair, TeardownOrder.Covers, Stops, StoppedPair, Outcome.Valid;
      NothingHappens(db);
      c := NOTHING;
      if !verified || !outcome.Valid() {
        return Err(VerificationRequired), c;
      }
      r, c := ResolveOperation(b, response);
      if r.Err? || r.value == Replay {
        return;
      }
      if r.value == New {
        return Err(NotFoundError), c;
      }
      if !StartOrder.StageReached(profile, db.ops[b.id].stage, ObserveProcess) {
        return Err(Precondition), c;
      }
      if b.target.id !in db.pairs {
        return Err(NotFoundError), c;
      }
      var rec := db.pairs[b.target.id];
      if rec.phase != AttemptRunning {
        return Err(Precondition), c;
      }
      if !Stops(rec.value, conditions, outcome) {
        return Err(Rejected), c;
      }
      PairIsOk(aggregates, db, b.target.id);
      StopsFromActive(rec.value, conditions, outcome);
      StoppedIsValid(aggregates, rec.value, conditions, outcome);
      c := Apply(Change(Some(Finished(db.ops[b.id], ResultSucceeded, response)),
                        PutPair(b.target.id, StoppedRec(rec, conditions, outcome))));
    }

    /** After a verified rollback the creating Sandbox goes and its create is failed, in one step. */
    method FailSandboxCreateAfterRollback(b: Binding, verified: bool, response: string)
      returns (r: Result<Resolution, Error>, ghost c: Change)
      requires Valid() && b.target.kind == TargetSandbox && b.kind == Create
      modifies this
      ensures Valid() && old(run) <= run && Stepped(old(db), c, db, r.Err?)
      ensures r != Ok(New)
      ensures r == Ok(Resume) <==>
                verified && Resumes(old(db), profile, b)
                && b.target.id in old(db).sandboxes && old(db).sandboxes[b.target.id].resources == []
      ensures r == Ok(Resume) ==>
                c == Change(Some(Finished(old(db).ops[b.id], ResultFailed, response)), DropSandbox(b.target.id))
    {
      hide Inv, AggregatesValid, Logged, After, HasActive, HasActivePair, HasPair, TeardownOrder.Covers;
      NothingHappens(db);
      c := NOTHING;
      if !verified {
        return Err(VerificationRequired), c;
      }
      r, c := ResolveOperation(b, response);
      if r.Err? || r.value == Replay {
        return;
      }
      if r.value == New {
        return Err(NotFoundError), c;
      }
      ActiveCreateShows(db, b);
      var rec := db.sandboxes[b.target.id];
      if rec.phase != SandboxCreating || rec.resources != [] {
        return Err(Precondition), c;
      }
      CreatingHasNoPair(db, b.target.id);
      c := Apply(Change(Some(Finished(db.ops[b.id], ResultFailed, response)), DropSandbox(b.target.id)));
    }

    /** After a verified rollback the pair stays as Stopped history and its create is failed, in one step. */
    method FailContainerCreateAfterRollback(b: Binding, verified: bool, failure: Condition, response: string)
      returns (r: Result<Resolution, Error>, ghost c: Change)
      requires Valid() && b.target.kind == TargetContainer && b.kind == Create
      modifies this
      ensures Valid() && old(run) <= run && Stepped(old(db), c, db, r.Err?)
      ensures r != Ok(New)
      ensures r == Ok(Resume) <==>
                verified && failure.Valid() && Resumes(old(db), profile, b)
                && b.target.id in old(db).pairs && old(db).pairs[b.target.id].resources == []
      ensures r == Ok(Resume) ==>
                c == Change(Some(Finished(old(db).ops[b.id], ResultFailed, response)),
                            PutPair(b.target.id, FailedRec(old(db).pairs[b.target.id], failure)))
    {
      hide Inv, AggregatesValid, Logged, After, HasActive, HasActivePair, HasPair, TeardownOrder.Covers, Condition.Valid, FailedPair, ContainerAttempts.Valid;
      NothingHappens(db);
      c := NOTHING;
      if !verified {
        return Err(VerificationRequired), c;
      }
      r, c := ResolveOperation(b, response);
      if r.Err? || r.value == Replay {
        return;
      }
      if r.value == New {
        return Err(NotFoundError), c;
      }
      ActiveCreateShows(db, b);
      var rec := db.pairs[b.target.id];
      if rec.phase != AttemptCreating || rec.resources != [] {
        return Err(Precondition), c;
      }
      if !failure.Valid() {
        return Err(Rejected), c;
      }
      PairIsOk(aggregates, db, b.target.id);
      FailedIsValid(aggregates, rec.value, failure);
      c := Apply(Change(Some(Finished(db.ops[b.id], ResultFailed, response)), PutPair(b.target.id, FailedRec(rec, failure))));
    }

    /** Records or clears one condition of a resource as an operation of its own, which is over at once. */
    method ReconcileCondition(b: Binding, change: ConditionChange, response: string) returns (r: Result<Resolution, Error>, ghost c: Change)
      requires Valid() && b.kind == State && b.target.kind != TargetAttempt
      modifies this
      ensures Valid() && old(run) <= run && Stepped(old(db), c, db, r.Err?)
      ensures r != Ok(Resume)
      ensures r == Ok(Replay) <==> Answered(old(db), profile, b)
      ensures r == Ok(New) <==> IsNew(old(db), b) && ResourceTakes(old(db), b.target, change)
      ensures r == Ok(New) ==>
                c == Change(Some(Finished(Intent(b, profile), ResultSucceeded, response)), ConditionsPut(old(db), b.target, change))
    {
      hide Inv, AggregatesValid, Logged, After, HasActive, HasActivePair, HasPair, TeardownOrder.Covers, ResourceTakes, ConditionsPut;
      NothingHappens(db);
      r, c := ResolveOperation(b, response);
      if r.Err? || r.value == Replay {
        return;
      }
      if r.value != New {
        return Err(Rejected), c;
      }
      if !ResourceTakes(db, b.target, change) {
        return Err(Rejected), c;
      }
      IdleTarget(db, b.target);
      var op := Finished(Intent(b, profile), ResultSucceeded, response);
      ConditionsFit(aggregates, db, op, change);
      c := Apply(Change(Some(op), ConditionsPut(db, b.target, change)));
    }

    /** Ends an active operation that recovery cannot continue, and says why on the resource; a create is never ended this way. */
    method FailActiveOperation(id: OpId, target: Target, fingerprint: string, condition: Condition, response: string)
      returns (r: Result<Resolution, Error>, ghost c: Change)
      requires Valid()
      modifies this
      ensures Valid() && old(run) <= run && Stepped(old(db), c, db, r.Err?)
      ensures r != Ok(New)
      ensures r == Ok(Resume) <==>
                && id in old(db).ops
                && var op := old(db).ops[id];
                   && Resumes(old(db), profile, Binding(id, op.binding.kind, target, fingerprint))
                   && op.binding.kind != Create && ResourceTakes(old(db), target, Upsert(condition))
      ensures r == Ok(Resume) ==>
                c == Change(Some(Finished(old(db).ops[id], ResultFailed, response)), ConditionsPut(old(db), target, Upsert(condition)))
    {
      hide Inv, AggregatesValid, Logged, After, HasActive, HasActivePair, HasPair, TeardownOrder.Covers, ResourceTakes, ConditionsPut;
      NothingHappens(db);
      c := NOTHING;
      if id !in db.ops {
        return Err(NotFoundError), c;
      }
      var op := db.ops[id];
      var b := Binding(id, op.binding.kind, target, fingerprint);
      if op.profile != profile {
        return Err(ProfileMismatch), c;
      }
      if op.binding != b {
        return Err(BindingMismatch), c;
      }
      if op.state != Running {
        return Ok(Replay), c;
      }
      if op.binding.kind == Create {
        return Err(Precondition), c;
      }
      if !ResourceTakes(db, target, Upsert(condition)) {
        return Err(Rejected), c;
      }
      ActiveDecides(db, id);
      ConditionsFit(aggregates, db, Finished(op, ResultFailed, response), Upsert(condition));
      c := Apply(Change(Some(Finished(op, ResultFailed, response)), ConditionsPut(db, target, Upsert(condition))));
      r := Ok(Resume);
    }

    /** Stores provider progress of an active operation, with at most one condition of its resource; a finished one is returned unchanged and never reopened. */
    method CheckpointOperation(id: OpId, target: Target, fingerprint: string, stage: Stage, progress: Progress, change: Option<ConditionChange>)
      returns (r: Result<Resolution, Error>, ghost c: Change)
      requires Valid()
      modifies this
      ensures Valid() && old(run) <= run && Stepped(old(db), c, db, r.Err?)
      ensures r != Ok(New)
      ensures r == Ok(Replay) <==>
                && CheckpointOk(rules, id, target, stage, progress, change) && id in old(db).ops
                && var op := old(db).ops[id]; op.binding == Binding(id, op.binding.kind, target, fingerprint) && op.state != Running
      ensures r == Ok(Resume) <==>
                && CheckpointOk(rules, id, target, stage, progress, change) && id in old(db).ops
                && var op := old(db).ops[id];
                   && op.binding == Binding(id, op.binding.kind, target, fingerprint) && op.state == Running
                   && (|| Unchanged(op, stage, progress, change)
                       || (&& !StartOrder.Refused(op.profile, op.binding.kind, op.stage, stage)
                           && ResourceExists(old(db), target)
                           && (change.Some? ==> ResourceTakes(old(db), target, change.value))))
      ensures r == Ok(Resume) ==>
                var op := old(db).ops[id];
                c == if Unchanged(op, stage, progress, change) then NOTHING
                     else Change(Some(op.(stage := stage, progress := progress)),
                                 if change.Some? then ConditionsPut(old(db), target, change.value) else KeepRes)
      ensures r == Ok(Resume) ==> id in db.ops && db.ops[id] == old(db).ops[id].(stage := stage, progress := progress)
      ensures r == Ok(Resume) ==>
                && (forall i :: 0 <= i < |progress.receipts| ==>
                      progress.receipts[i].owner.operation == id && progress.receipts[i].owner.target == target)
                && (forall i :: 0 <= i < |progress.releases| ==>
                      progress.releases[i].cleanup == id && progress.releases[i].resource.owner.target == target)
      ensures r == Ok(Replay) ==> c == NOTHING
    {
      hide Inv, AggregatesValid, Logged, After, HasActive, HasActivePair, HasPair, StartOrder.Refused, TeardownOrder.Covers;
      hide CheckpointOk, ResourceTakes, ConditionsPut;
      NothingHappens(db);
      c := NOTHING;
      if !CheckpointOk(rules, id, target, stage, progress, change) {
        return Err(Rejected), c;
      }
      CheckpointStage(rules, id, target, stage, progress, change);
      if id !in db.ops {
        return Err(NotFoundError), c;
      }
      var op := db.ops[id];
      if op.binding != Binding(id, op.binding.kind, target, fingerprint) {
        return Err(BindingMismatch), c;
      }
      if op.state != Running {
        return Ok(Replay), c;
      }
      if Unchanged(op, stage, progress, change) {
        return Ok(Resume), c;
      }
      if StartOrder.Refused(op.profile, op.binding.kind, op.stage, stage) {
        return Err(Precondition), c;
      }
      if !ResourceExists(db, target) {
        return Err(NotFoundError), c;
      }
      var next := op.(stage := stage, progress := progress);
      if change.Some? {
        if !ResourceTakes(db, target, change.value) {
          return Err(Rejected), c;
        }
        ActiveDecides(db, id);
        ConditionsFit(aggregates, db, next, change.value);
        c := Apply(Change(Some(next), ConditionsPut(db, target, change.value)));
      } else {
        c := Apply(Change(Some(next), KeepRes));
      }
      OpsAfter(old(db), c);
      r := Ok(Resume);
    }

    /** Commits a change and hands it back for the record. */
    method Apply(change: Change) returns (ghost c: Change)
      requires Valid() && Permitted(db, change) && ResValid(aggregates, change.res)
      modifies this
      ensures c == change && Valid() && old(run) <= run && Stepped(old(db), c, db, false)
    {
      hide Inv, Permitted, After, AggregatesValid, Logged, ResValid;
      Commit(change);
      c := change;
    }
  }

  lemma SandboxIsOk(a: Aggregates, db: Db, id: string)
    requires AggregatesValid(a, db) && id in db.sandboxes
    ensures SandboxOk(a, id, db.sandboxes[id])
  {
  }

  lemma PairIsOk(a: Aggregates, db: Db, id: string)
    requires AggregatesValid(a, db) && id in db.pairs
    ensures PairOk(a, id, db.pairs[id])
  {
  }

  lemma ConfirmedIsValid(a: Aggregates, p: ContainerAttempts.Pair, identity: Option<ProcessIdentity>, streams: Streams, to: AttemptPhase)
    requires ContainerAttempts.Valid(a.ForPair(), p) && Confirms(p, identity, streams, to)
    ensures var q := Confirmed(p, identity, streams, to);
            && ContainerAttempts.Valid(a.ForPair(), q) && AttemptEdge(p.attempt.phase, to)
            && q.container.(status := p.container.status) == p.container
            && q.attempt == p.attempt.(phase := to, outcome := PENDING, streams := streams,
                                       process := if identity.Some? then identity else p.attempt.process)
  {
    hide ContainerAttempts.Valid;
    var rules := a.ForPair();
    if identity.Some? {
      ContainerAttempts.WithProcessIsValid(rules, p, identity.value);
    }
    var q := if identity.Some? then ContainerAttempts.WithProcess(p, identity.value) else p;
    ContainerAttempts.WithStreamsIsValid(rules, q, streams);
    ContainerAttempts.TransitionedIsValid(rules, Equipped(p, identity, streams), to, PENDING);
  }

  lemma StoppedIsValid(a: Aggregates, p: ContainerAttempts.Pair, conditions: seq<Condition>, o: Outcome)
    requires ContainerAttempts.Valid(a.ForPair(), p) && Stops(p, conditions, o)
    ensures var q := StoppedPair(p, conditions, o);
            && ContainerAttempts.Valid(a.ForPair(), q) && q.container.(status := p.container.status) == p.container
            && q.attempt == p.attempt.(phase := AttemptStopped, outcome := o, conditions := conditions)
  {
    hide ContainerAttempts.Valid;
    ContainerAttempts.WithConditionsIsValid(a.ForPair(), p, conditions);
    ContainerAttempts.TransitionedIsValid(a.ForPair(), ContainerAttempts.WithConditions(p, conditions), AttemptStopped, o);
  }

  /** Only an active Attempt can stop. */
  lemma StopsFromActive(p: ContainerAttempts.Pair, conditions: seq<Condition>, o: Outcome)
    ensures Stops(p, conditions, o) ==> IsActiveAttempt(p.attempt.phase)
  {
  }

  lemma EndedIsValid(a: Aggregates, p: ContainerAttempts.Pair, conditions: seq<Condition>, o: Outcome)
    requires ContainerAttempts.Valid(a.ForPair(), p) && EndsStart(p, conditions, o)
    ensures var q := EndedPair(p, conditions, o);
            && ContainerAttempts.Valid(a.ForPair(), q) && q.container.(status := p.container.status) == p.container
            && q.attempt == p.attempt.(phase := AttemptStopped, outcome := o, conditions := conditions)
  {
    hide ContainerAttempts.Valid;
    var rules, q := a.ForPair(), ContainerAttempts.WithConditions(p, conditions);
    ContainerAttempts.WithConditionsIsValid(rules, p, conditions);
    if o.presence == NotApplicable {
      ContainerAttempts.TransitionedIsValid(rules, q, AttemptStopped, o);
    } else {
      ContainerAttempts.TransitionedIsValid(rules, q, AttemptRunning, PENDING);
      ContainerAttempts.TransitionedIsValid(rules, ContainerAttempts.Transitioned(q, AttemptRunning, PENDING), AttemptStopped, o);
    }
  }

  lemma NeverRanIsValid(a: Aggregates, rec: PairRec)
    requires ContainerAttempts.Valid(a.ForPair(), rec.value) && rec.phase == AttemptCreated
    ensures var q := NeverRan(rec).value;
            && ContainerAttempts.Valid(a.ForPair(), q) && q.container.(status := rec.value.container.status) == rec.value.container
            && q.attempt == rec.value.attempt.(phase := AttemptStopped, outcome := NOT_APPLICABLE)
  {
    ContainerAttempts.TransitionedIsValid(a.ForPair(), rec.value, AttemptStopped, NOT_APPLICABLE);
  }

  /** A create that failed always stops: recording the failure and never having run are both always accepted. */
  lemma FailedIsValid(a: Aggregates, p: ContainerAttempts.Pair, failure: Condition)
    requires ContainerAttempts.Valid(a.ForPair(), p) && p.attempt.phase == AttemptCreating && failure.Valid()
    ensures var q := FailedPair(p, failure);
            && ContainerAttempts.Valid(a.ForPair(), q) && q.container.(status := p.container.status) == p.container
            && q.attempt == p.attempt.(phase := AttemptStopped, outcome := NOT_APPLICABLE, conditions := q.attempt.conditions)
            && ChangeShows(p.attempt.conditions, q.attempt.conditions, Upsert(failure))
  {
    var rules, conditions := a.ForPair(), Upserted(p.attempt.conditions, failure);
    ChangedShows(p.attempt.conditions, Upsert(failure));
    ContainerAttempts.CanUpsert(rules, p, failure);
    ContainerAttempts.WithConditionsIsValid(rules, p, conditions);
    ContainerAttempts.TransitionedIsValid(rules, ContainerAttempts.WithConditions(p, conditions), AttemptStopped, NOT_APPLICABLE);
  }

  /** Exactly when a valid pair takes a confirmation: its facts are well formed, a process is recorded only once, and one is there to run. */
  lemma ConfirmsWhen(a: Aggregates, p: ContainerAttempts.Pair, identity: Option<ProcessIdentity>, streams: Streams, to: AttemptPhase)
    requires ContainerAttempts.Valid(a.ForPair(), p) && AttemptEdge(p.attempt.phase, to) && (to == AttemptCreated || to == AttemptRunning)
    ensures Confirms(p, identity, streams, to) <==>
              && streams.Valid()
              && (identity.Some? ==> identity.value.Valid() && (p.attempt.process.None? || p.attempt.process == identity))
              && var process := if identity.Some? then identity else p.attempt.process;
                 (to == AttemptRunning ==> process.Some? && process.value.Valid())
  {
    hide Blank, HasNul, ConditionsValid, HasCondition;
  }

  /** Exactly when a valid pair takes a terminal record: it is active, the outcome is one its phase allows, and an unknown one comes with its evidence. */
  lemma StopsWhen(a: Aggregates, p: ContainerAttempts.Pair, conditions: seq<Condition>, o: Outcome)
    requires ContainerAttempts.Valid(a.ForPair(), p)
    ensures Stops(p, conditions, o) <==>
              && ConditionsValid(conditions) && o.Valid() && (o.presence == Unknown ==> HasCondition(conditions, OUTCOME_UNKNOWN))
              && match p.attempt.phase
                 case AttemptRunning => o.presence == Captured || o.presence == Unknown
                 case AttemptStopped => false
                 case AttemptAbsent => false
                 case _ => o.presence == NotApplicable || o.presence == Unknown
  {
    hide Blank, HasNul, ConditionsValid, HasCondition;
  }

  /** Exactly when a valid Created pair takes the end of its start. */
  lemma EndsStartWhen(a: Aggregates, p: ContainerAttempts.Pair, conditions: seq<Condition>, o: Outcome)
    requires ContainerAttempts.Valid(a.ForPair(), p) && p.attempt.phase == AttemptCreated
    ensures EndsStart(p, conditions, o) <==>
              && ConditionsValid(conditions) && o.Valid() && (o.presence == Unknown ==> HasCondition(conditions, OUTCOME_UNKNOWN))
              && (|| o.presence == NotApplicable
                  || (&& (o.presence == Captured || o.presence == Unknown)
                      && p.attempt.process.Some? && p.attempt.process.value.Valid()))
  {
    hide Blank, HasNul, ConditionsValid, HasCondition;
  }

  /** What an operation's end writes is what every later retry of the same request is answered with. */
  lemma FinishedAnswers(run: seq<Db>, changes: seq<Change>, k: nat, j: nat, op: Op, result: OpResult, response: string)
    requires IsRun(run, changes) && k < j < |run| && result != ResultPending
    requires changes[k].op == Some(Finished(op, result, response))
    ensures Replays(run[j], op.profile, op.binding)
    ensures var stored := run[j].ops[op.binding.id];
            stored.response == response && stored.result == result && stored.stage == Complete
            && (stored.state == Failed <==> result == ResultFailed)
  {
    hide Permitted, AfterRes;
    OpsAfter(run[k], changes[k]);
    OutcomesAreImmutable(run, changes, k + 1, j, op.binding.id);
  }

  /** An intent is resumed by the very same request, until its operation ends. */
  lemma IntentResumes(run: seq<Db>, changes: seq<Change>, k: nat, j: nat, b: Binding, profile: HostProfile)
    requires IsRun(run, changes) && k < j < |run| && changes[k].op == Some(Intent(b, profile))
    ensures b.id in run[j].ops && run[j].ops[b.id].binding == b
    ensures run[k + 1].ops[b.id].profile == profile && Resumes(run[k + 1], profile, b)
  {
    hide Permitted, AfterRes;
    OpsAfter(run[k], changes[k]);
    OutcomesAreImmutable(run, changes, k + 1, j, b.id);
  }

  /** The conditions after a change: of its kind exactly the one recorded, or none, and of other kinds the same. */
  predicate ChangeShows(before: seq<Condition>, after: seq<Condition>, change: ConditionChange) {
    var kind := if change.Upsert? then change.condition.kind else change.kind;
    && (forall x :: x in after && x.kind == kind ==> change == Upsert(x))
    && (change.Upsert? ==> change.condition in after)
    && (forall x :: x in before && x.kind != kind ==> x in after)
    && (forall x :: x in after && x.kind != kind ==> x in before)
  }

  /** A change of conditions stores exactly that change, in a pair on both sides, and nothing else. */
  lemma ConditionsShown(a: Aggregates, db: Db, t: Target, change: ConditionChange)
    requires AggregatesValid(a, db) && ResourceTakes(db, t, change)
    ensures var r := ConditionsPut(db, t, change);
            if t.kind == TargetSandbox then
              var v := db.sandboxes[t.id].value;
              r == PutSandbox(t.id, db.sandboxes[t.id].(value := r.srec.value))
              && r.srec.value == v.(status := v.status.(conditions := r.srec.value.status.conditions))
              && ChangeShows(v.status.conditions, r.srec.value.status.conditions, change)
            else
              var p := db.pairs[t.id].value;
              r == PutPair(t.id, db.pairs[t.id].(value := r.prec.value))
              && r.prec.value.attempt == p.attempt.(conditions := r.prec.value.attempt.conditions)
              && r.prec.value.container == p.container.(status := p.container.status.(conditions := r.prec.value.attempt.conditions))
              && ChangeShows(p.attempt.conditions, r.prec.value.attempt.conditions, change)
  {
    hide ConditionsValid, Condition.Valid, Blank, HasNul, Upserted, Without;
    if t.kind == TargetSandbox {
      assert SandboxOk(a, t.id, db.sandboxes[t.id]);
      ChangedShows(db.sandboxes[t.id].value.status.conditions, change);
    } else {
      assert PairOk(a, t.id, db.pairs[t.id]);
      ChangedShows(db.pairs[t.id].value.attempt.conditions, change);
    }
  }

  lemma ChangedShows(conditions: seq<Condition>, change: ConditionChange)
    requires ConditionsValid(conditions) && (change.Upsert? ==> change.condition.Valid())
    ensures ChangeShows(conditions, Changed(conditions, change), change)
  {
    match change
    case Upsert(condition) => UpsertedMembers(conditions, condition);
    case Clear(kind) => WithoutMembers(conditions, kind);
  }

  /** Every journal that a create makes durable is one that the checkpoint of its stage takes. */
  lemma JournalIsAccepted(rules: Rules, owner: OwnerKey, j: Acquisition.Journal, stage: Stage)
    requires rules.ReadsBack() && Acquisition.JournalInv(rules, owner, j) && stage.IsCheckpoint() && stage != Rollback
    ensures CheckpointOk(rules, owner.operation, owner.target, stage, Progress(None, None, None, j.rollback, j.receipts, []), None)
  {
    hide Rules.Valid, Profile, ReceiptFromDescriptor;
    forall m, n | 0 <= m < n < |j.receipts|
      ensures j.receipts[m].kind != j.receipts[n].kind
    {
      ProfileKindsDiffer(owner.target.kind, m, n);
    }
    Acquisition.InversesOfKinds(rules, j.receipts);
    Acquisition.InversesDecode(rules, j.receipts);
  }

  /** A target without an active operation is not Creating. */
  lemma IdleTarget(db: Db, t: Target)
    requires !HasActive(db, t)
    ensures !HasActiveCreate(db, t)
  {
  }

  /** A change of conditions fits the operation that brings it and keeps the resource valid. */
  lemma ConditionsFit(a: Aggregates, db: Db, op: Op, change: ConditionChange)
    requires Inv(db) && AggregatesValid(a, db) && ResourceTakes(db, op.binding.target, change)
    requires HasActiveCreate(db, op.binding.target) <==> IsActiveCreate(op)
    requires StagePermitted(db, op)
    ensures var r := ConditionsPut(db, op.binding.target, change);
            && r != KeepRes && ResPermitted(db, op, r) && HostPermitted(db, op, r) && ResValid(a, r)
  {
    hide Inv, AggregatesValid, SandboxOk, PairOk, SandboxTakes, PairTakes, HasActiveCreate, StagePermitted, ResPermitted, HostPermitted;
    var t := op.binding.target;
    if t.kind == TargetSandbox {
      SandboxIsOk(a, db, t.id);
      SandboxConditionsFit(a, db, op, change);
    } else {
      PairIsOk(a, db, t.id);
      PairConditionsFit(a, db, op, change);
    }
  }

  lemma SandboxConditionsFit(a: Aggregates, db: Db, op: Op, change: ConditionChange)
    requires Inv(db) && op.binding.target.kind == TargetSandbox && ResourceTakes(db, op.binding.target, change)
    requires SandboxOk(a, op.binding.target.id, db.sandboxes[op.binding.target.id])
    requires HasActiveCreate(db, op.binding.target) <==> IsActiveCreate(op)
    requires StagePermitted(db, op)
    ensures var r := ConditionsPut(db, op.binding.target, change);
            r != KeepRes && ResPermitted(db, op, r) && HostPermitted(db, op, r) && ResValid(a, r)
  {
    hide HasActiveCreate, HasActivePair, StagePermitted, OpInv, PairPlaced, SandboxTakes;
    var id := op.binding.target.id;
    assert SandboxCreates(db, id) && SandboxNames(db, id);
    hide Inv;
    SandboxTakesIsValid(a, db.sandboxes[id].value, change);
    hide Sandboxes.Valid;
  }

  lemma PairConditionsFit(a: Aggregates, db: Db, op: Op, change: ConditionChange)
    requires Inv(db) && op.binding.target.kind == TargetContainer && ResourceTakes(db, op.binding.target, change)
    requires PairOk(a, op.binding.target.id, db.pairs[op.binding.target.id])
    requires HasActiveCreate(db, op.binding.target) <==> IsActiveCreate(op)
    requires StagePermitted(db, op)
    ensures var r := ConditionsPut(db, op.binding.target, change);
            r != KeepRes && ResPermitted(db, op, r) && HostPermitted(db, op, r) && ResValid(a, r)
  {
    hide HasActiveCreate, HasActivePair, StagePermitted, OpInv, PairTakes;
    var id := op.binding.target.id;
    PairStored(db, id);
    assert PairCreates(db, id);
    hide Inv;
    PairTakesIsValid(a, db.pairs[id].value, change);
    hide ContainerAttempts.Valid;
  }

  lemma PairStored(db: Db, p: string)
    requires Inv(db) && p in db.pairs
    ensures db.pairs[p].phase != AttemptAbsent
  {
    assert PairPlaced(db, p);
  }

  lemma SandboxTakesIsValid(a: Aggregates, v: Sandboxes.SandboxValue, change: ConditionChange)
    requires Sandboxes.Valid(a.ForSandbox(), v) && SandboxTakes(v, change)
    ensures Sandboxes.Valid(a.ForSandbox(), Sandboxes.WithConditions(v, Changed(v.status.conditions, change)))
  {
    match change
    case Upsert(condition) => UpsertedMembers(v.status.conditions, condition);
    case Clear(kind) => WithoutMembers(v.status.conditions, kind);
  }

  lemma PairTakesIsValid(a: Aggregates, p: ContainerAttempts.Pair, change: ConditionChange)
    requires ContainerAttempts.Valid(a.ForPair(), p) && PairTakes(p, change)
    ensures ContainerAttempts.Valid(a.ForPair(), ContainerAttempts.WithConditions(p, Changed(p.attempt.conditions, change)))
  {
    match change
    case Upsert(condition) => ContainerAttempts.CanUpsert(a.ForPair(), p, condition);
    case Clear(kind) =>
      WithoutMembers(p.attempt.conditions, kind);
      ContainerAttempts.CanClear(a.ForPair(), p, kind);
    hide ContainerAttempts.Valid, ConditionsValid, Blank, HasNul;
    ContainerAttempts.WithConditionsIsValid(a.ForPair(), p, Changed(p.attempt.conditions, change));
  }

  lemma CheckpointStage(rules: Rules, id: OpId, t: Target, stage: Stage, progress: Progress, change: Option<ConditionChange>)
    requires CheckpointOk(rules, id, t, stage, progress, change)
    ensures stage.IsCheckpoint()
    ensures forall i :: 0 <= i < |progress.receipts| ==>
              rules.Valid(progress.receipts[i]) && progress.receipts[i].owner.operation == id && progress.receipts[i].owner.target == t
    ensures forall i :: 0 <= i < |progress.releases| ==>
              progress.releases[i].cleanup == id && progress.releases[i].resource.owner.target == t
    ensures progress.cause.Some? <==> stage == Rollback
  {
    hide RollbackOk, Rules.Valid;
  }

  /** Receipts handed over come from one acquisition. */
  lemma HandedOverFromOne(rs: seq<Receipt>)
    ensures OneAdoptedOwner(Acquisition.AdoptedAll(rs)) <==> forall i, j :: 0 <= i < |rs| && 0 <= j < |rs| ==> rs[i].owner == rs[j].owner
  {
    var all := Acquisition.AdoptedAll(rs);
    assert forall i :: 0 <= i < |rs| ==> all[i].owner == rs[i].owner;
  }

  lemma NothingHappens(db: Db)
    ensures Permitted(db, NOTHING) && After(db, NOTHING) == db
  {
  }

  /** A creating Sandbox has no pair yet. */
  lemma CreatingHasNoPair(db: Db, sandbox: string)
    requires Inv(db) && sandbox in db.sandboxes && db.sandboxes[sandbox].phase == SandboxCreating
    ensures !HasPair(db, sandbox)
  {
    assert forall p :: p in db.pairs ==> PairPlaced(db, p);
  }

  lemma PairIsPlaced(db: Db, p: string)
    requires Inv(db) && p in db.pairs
    ensures db.pairs[p].sandbox in db.sandboxes
  {
    assert PairPlaced(db, p);
  }

  /** An active create shows in the phase of its resource. */
  lemma ActiveCreateShows(db: Db, b: Binding)
    requires Inv(db) && b.id in db.ops && db.ops[b.id].state == Running && db.ops[b.id].binding == b && b.kind == Create
    ensures b.target.kind == TargetSandbox ==> b.target.id in db.sandboxes && db.sandboxes[b.target.id].phase == SandboxCreating
    ensures b.target.kind == TargetContainer ==> b.target.id in db.pairs && db.pairs[b.target.id].phase == AttemptCreating
  {
    assert IsActiveOn(db, b.id, b.target);
    assert SandboxCreates(db, b.target.id) && PairCreates(db, b.target.id);
  }
}
