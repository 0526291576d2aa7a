/**
 The durable records of the lifecycle: operations, Sandboxes and Container
 pairs. A transaction writes at most one operation and changes at most the
 resource that operation targets; what such changes keep holds over every run.
 */
module LifecycleStore {
  import opened Results
  import opened Domain
  import opened Operations
  import opened Ownership
  import StartOrder
  import TeardownOrder
  import Acquisition
  import Sandboxes
  import ContainerAttempts

  datatype OpResult = ResultPending | ResultSucceeded | ResultNoop | ResultFailed

  /** What providers have reached: a rollback cause, a baseline and a deadline, the inverses, and the two ownership journals. */
  datatype Progress = Progress(
    cause: Option<string>, baseline: Option<string>, deadline: Option<int>,
    rollback: seq<Acquisition.Record>, receipts: seq<Receipt>, releases: seq<Release>)

  const NO_PROGRESS: Progress := Progress(None, None, None, [], [], [])

  datatype Op = Op(
    binding: Binding, profile: HostProfile, state: OpState, stage: Stage, result: OpResult, progress: Progress, response: string)
  {
    const receipts: seq<Receipt> := progress.receipts
    const releases: seq<Release> := progress.releases
  }

  /** A stored Sandbox and its adopted inventory. */
  datatype SandboxRec = SandboxRec(value: Sandboxes.SandboxValue, resources: seq<Receipt>) {
    const phase: SandboxPhase := value.status.phase
    const spec: string := value.spec

    /** The Container and the Attempt it names. */
    const current: Option<(string, string)> :=
      if value.status.currentContainer.Some? && value.status.currentAttempt.Some?
      then Some((value.status.currentContainer.value, value.status.currentAttempt.value)) else None
  }

  /** A stored Container and its Attempt, filed under the Container, with their adopted inventory. */
  datatype PairRec = PairRec(value: ContainerAttempts.Pair, resources: seq<Receipt>) {
    const attempt: string := value.attempt.id
    const sandbox: string := value.container.sandbox
    const spec: string := value.container.spec
    const phase: AttemptPhase := value.attempt.phase
  }

  datatype Db = Db(ops: map<OpId, Op>, sandboxes: map<string, SandboxRec>, pairs: map<string, PairRec>)

  const EMPTY: Db := Db(map[], map[], map[])

  function SandboxTarget(id: string): Target { Target(TargetSandbox, id) }

  function ContainerTarget(id: string): Target { Target(TargetContainer, id) }

  predicate IsActiveOn(db: Db, i: OpId, t: Target) {
    i in db.ops && db.ops[i].state == Running && db.ops[i].binding.target == t
  }

  predicate HasActive(db: Db, t: Target) {
    exists i :: i in db.ops && IsActiveOn(db, i, t)
  }

  predicate HasActiveCreate(db: Db, t: Target) {
    exists i :: i in db.ops && IsActiveOn(db, i, t) && db.ops[i].binding.kind == Create
  }

  predicate HasActivePair(db: Db, sandbox: string) {
    exists p :: p in db.pairs && db.pairs[p].sandbox == sandbox && IsActiveAttempt(db.pairs[p].phase)
  }

  predicate HasPair(db: Db, sandbox: string) {
    exists p :: p in db.pairs && db.pairs[p].sandbox == sandbox
  }

  /** What a transaction does to resources: at most one Sandbox or one pair, and the reference between them. */
  datatype ResChange =
    | KeepRes
    | PutSandbox(sandbox: string, srec: SandboxRec)
    | DropSandbox(sandbox: string)
    | NewPair(container: string, prec: PairRec)
    | PutPair(container: string, prec: PairRec)
    | DropPair(container: string)

  datatype Change = Change(op: Option<Op>, res: ResChange)

  /** The Sandbox no longer names a pair that goes away. */
  function Cleared(s: SandboxRec, container: string, attempt: string): SandboxRec {
    if s.current == Some((container, attempt)) then s.(value := Sandboxes.WithoutCurrent(s.value)) else s
  }

  function Naming(s: SandboxRec, container: string, attempt: string): SandboxRec {
    s.(value := Sandboxes.WithCurrent(s.value, container, attempt))
  }

  function AfterRes(db: Db, r: ResChange): Db {
    match r
    case KeepRes => db
    case PutSandbox(id, rec) => db.(sandboxes := db.sandboxes[id := rec])
    case DropSandbox(id) => db.(sandboxes := db.sandboxes - {id})
    case PutPair(id, rec) => db.(pairs := db.pairs[id := rec])
    case NewPair(id, rec) =>
      if rec.sandbox !in db.sandboxes then db
      else db.(pairs := db.pairs[id := rec],
               sandboxes := db.sandboxes[rec.sandbox := Naming(db.sandboxes[rec.sandbox], id, rec.attempt)])
    case DropPair(id) =>
      if id !in db.pairs || db.pairs[id].sandbox !in db.sandboxes then db
      else
        var p := db.pairs[id];
        db.(pairs := db.pairs - {id},
            sandboxes := db.sandboxes[p.sandbox := Cleared(db.sandboxes[p.sandbox], id, p.attempt)])
  }

  function After(db: Db, c: Change): Db {
    var r := AfterRes(db, c.res);
    if c.op.None? then r else r.(ops := r.ops[c.op.value.binding.id := c.op.value])
  }

  /** A new operation finds no other active on its target, or is stored as the failure that says so; a known one is active and stays bound. */
  predicate OpPermitted(db: Db, c: Change)
    requires c.op.Some?
  {
    var op := c.op.value;
    var id, t := op.binding.id, op.binding.target;
    if id in db.ops then
      db.ops[id].state == Running && op.binding == db.ops[id].binding && op.profile == db.ops[id].profile
    else
      && (!HasActive(db, t) || (op.state == Failed && c.res == KeepRes))
      && (op.binding.kind == Create ==> t.kind == TargetSandbox || t.kind == TargetContainer)
  }

  predicate WasActiveCreate(db: Db, op: Op) {
    op.binding.kind == Create && op.binding.id in db.ops
  }

  predicate IsActiveCreate(op: Op) { op.binding.kind == Create && op.state == Running }

  predicate ResPermitted(db: Db, op: Op, r: ResChange) {
    var t := op.binding.target;
    match r
    case KeepRes => IsActiveCreate(op) <==> WasActiveCreate(db, op)
    case PutSandbox(id, rec) =>
      && t == SandboxTarget(id)
      && (rec.phase == SandboxCreating <==> IsActiveCreate(op)) && rec.phase != SandboxAbsent
      && if id !in db.sandboxes then rec.phase == SandboxCreating && rec.current == None && op.binding.id !in db.ops
         else
           var prev := db.sandboxes[id];
           && rec.current == prev.current
           && (rec.phase == prev.phase || SandboxEdge(prev.phase, rec.phase))
           && (prev.phase == SandboxReady && rec.phase != SandboxReady ==> !HasActivePair(db, id))
    case DropSandbox(id) =>
      t == SandboxTarget(id) && id in db.sandboxes && op.state != Running && !HasPair(db, id)
    case NewPair(id, rec) =>
      && t == ContainerTarget(id) && id !in db.pairs && IsActiveCreate(op) && op.binding.id !in db.ops
      && rec.phase == AttemptCreating
      && rec.sandbox in db.sandboxes && db.sandboxes[rec.sandbox].phase == SandboxReady && !HasActivePair(db, rec.sandbox)
    case PutPair(id, rec) =>
      && t == ContainerTarget(id) && id in db.pairs
      && rec.attempt == db.pairs[id].attempt && rec.sandbox == db.pairs[id].sandbox
      && (rec.phase == AttemptCreating <==> IsActiveCreate(op)) && rec.phase != AttemptAbsent
      && (IsActiveAttempt(rec.phase) ==> IsActiveAttempt(db.pairs[id].phase))
    case DropPair(id) =>
      && t == ContainerTarget(id) && id in db.pairs && op.state != Running
      && db.pairs[id].sandbox in db.sandboxes && db.pairs[id].phase == AttemptStopped
  }

  predicate Permitted(db: Db, c: Change) {
    if c.op.None? then c.res == KeepRes
    else OpPermitted(db, c) && ResPermitted(db, c.op.value, c.res) && HostPermitted(db, c.op.value, c.res)
  }

  /** A succeeded create hands over the receipts it recorded, each marked as adopted. */
  predicate HandsOver(db: Db, op: Op, rs: seq<Receipt>) {
    && op.binding.kind == Create && op.state == Succeeded && op.binding.id in db.ops
    && rs == Acquisition.AdoptedAll(db.ops[op.binding.id].receipts)
  }

  /** A delete has a proof of absence for every receipt. */
  predicate Proven(db: Db, op: Op, rs: seq<Receipt>) {
    rs == [] || (op.binding.kind == Delete && op.binding.id in db.ops && TeardownOrder.Covers(db.ops[op.binding.id].releases, rs))
  }

  /** An operation starts at its intent and moves on by accepted checkpoints. */
  predicate StagePermitted(db: Db, op: Op) {
    op.state == Running ==>
      if op.binding.id !in db.ops then op.stage == PersistIntent
      else
        var stage := db.ops[op.binding.id].stage;
        || op.stage == stage
        || (op.stage.IsCheckpoint() && !StartOrder.Refused(op.profile, op.binding.kind, stage, op.stage))
  }

  /** What ties resources to their operations: a start is confirmed after its observation, an inventory comes from its create and goes with its proofs. */
  predicate HostPermitted(db: Db, op: Op, r: ResChange) {
    && StagePermitted(db, op)
    && match r
       case KeepRes => true
       case PutSandbox(id, rec) =>
         if id in db.sandboxes then rec.resources == db.sandboxes[id].resources || HandsOver(db, op, rec.resources)
         else rec.resources == []
       case NewPair(_, rec) => rec.resources == []
       case PutPair(id, rec) =>
         id in db.pairs ==>
           && (op.binding.kind == Start && rec.phase != db.pairs[id].phase ==>
                 op.binding.id in db.ops && StartOrder.StageReached(op.profile, db.ops[op.binding.id].stage, ObserveProcess))
           && (rec.phase == AttemptRunning && db.pairs[id].phase != AttemptRunning ==> op.binding.kind == Start)
           && (rec.resources == db.pairs[id].resources || HandsOver(db, op, rec.resources))
       case DropSandbox(id) => id in db.sandboxes ==> Proven(db, op, db.sandboxes[id].resources)
       case DropPair(id) => id in db.pairs ==> Proven(db, op, db.pairs[id].resources)
  }

  predicate OpInv(db: Db, i: OpId)
    requires i in db.ops
  {
    && db.ops[i].binding.id == i
    && (db.ops[i].binding.kind == Create ==>
          db.ops[i].binding.target.kind == TargetSandbox || db.ops[i].binding.target.kind == TargetContainer)
    && (forall j :: j in db.ops && db.ops[i].state == Running && IsActiveOn(db, j, db.ops[i].binding.target) ==> j == i)
  }

  /** A Sandbox is Creating exactly while an active create targets it. */
  predicate SandboxCreates(db: Db, s: string) {
    s in db.sandboxes && db.sandboxes[s].phase == SandboxCreating <==> HasActiveCreate(db, SandboxTarget(s))
  }

  /** A Sandbox names only an existing pair of its own. */
  predicate SandboxNames(db: Db, s: string)
    requires s in db.sandboxes
  {
    && db.sandboxes[s].phase != SandboxAbsent
    && (db.sandboxes[s].current.Some? ==>
          var (c, a) := db.sandboxes[s].current.value;
          c in db.pairs && db.pairs[c].sandbox == s && db.pairs[c].attempt == a)
  }

  /** A pair is Creating exactly while an active create targets it. */
  predicate PairCreates(db: Db, p: string) {
    p in db.pairs && db.pairs[p].phase == AttemptCreating <==> HasActiveCreate(db, ContainerTarget(p))
  }

  /** A pair's Sandbox exists, and is Ready while the Attempt is active. */
  predicate PairPlaced(db: Db, p: string)
    requires p in db.pairs
  {
    var r := db.pairs[p];
    && r.phase != AttemptAbsent
    && r.sandbox in db.sandboxes && db.sandboxes[r.sandbox].phase != SandboxCreating
    && (IsActiveAttempt(r.phase) ==> db.sandboxes[r.sandbox].phase == SandboxReady)
  }

  /** An active Attempt is the one its Sandbox names; so no Sandbox has two. */
  predicate ActiveIsNamed(db: Db, p: string)
    requires p in db.pairs
  {
    var r := db.pairs[p];
    IsActiveAttempt(r.phase) ==> r.sandbox in db.sandboxes && db.sandboxes[r.sandbox].current == Some((p, r.attempt))
  }

  ghost predicate Inv(db: Db) {
    && (forall i :: i in db.ops ==> OpInv(db, i))
    && (forall s: string :: SandboxCreates(db, s))
    && (forall s :: s in db.sandboxes ==> SandboxNames(db, s))
    && (forall p: string :: PairCreates(db, p))
    && (forall p :: p in db.pairs ==> PairPlaced(db, p))
    && (forall p :: p in db.pairs ==> ActiveIsNamed(db, p))
  }

  /** The character rules of identifiers and the checks of immutable specs, for both kinds of aggregate. */
  datatype Aggregates = Aggregates(idOk: string -> bool, sandboxSpecOk: string -> bool, containerSpecOk: string -> bool) {
    function ForSandbox(): Sandboxes.Rules { Sandboxes.Rules(idOk, sandboxSpecOk) }
    function ForPair(): ContainerAttempts.Rules { ContainerAttempts.Rules(idOk, containerSpecOk) }
  }

  predicate SandboxOk(a: Aggregates, id: string, rec: SandboxRec) {
    Sandboxes.Valid(a.ForSandbox(), rec.value) && rec.value.id == id
  }

  predicate PairOk(a: Aggregates, id: string, rec: PairRec) {
    ContainerAttempts.Valid(a.ForPair(), rec.value) && rec.value.container.id == id
  }

  /** Every stored aggregate meets its whole invariant and is filed under its own identifier. */
  predicate AggregatesValid(a: Aggregates, db: Db) {
    && (forall s :: s in db.sandboxes ==> SandboxOk(a, s, db.sandboxes[s]))
    && (forall p :: p in db.pairs ==> PairOk(a, p, db.pairs[p]))
  }

  /** What a change stores is valid. */
  predicate ResValid(a: Aggregates, r: ResChange) {
    match r
    case PutSandbox(id, rec) => SandboxOk(a, id, rec)
    case NewPair(id, rec) => PairOk(a, id, rec)
    case PutPair(id, rec) => PairOk(a, id, rec)
    case _ => true
  }

  lemma NamingIsOk(a: Aggregates, id: string, s: SandboxRec, container: string, p: PairRec)
    requires SandboxOk(a, id, s) && PairOk(a, container, p)
    ensures SandboxOk(a, id, Naming(s, container, p.attempt)) && SandboxOk(a, id, Cleared(s, container, p.attempt))
  {
    Sandboxes.ChangesAreValid(a.ForSandbox(), s.value);
  }

  /** The two sides of a pair change, the naming and the clearing of a Sandbox, keep every aggregate valid. */
  lemma AggregatesKept(a: Aggregates, db: Db, c: Change)
    requires AggregatesValid(a, db) && ResValid(a, c.res)
    ensures AggregatesValid(a, After(db, c))
  {
    hide SandboxOk, PairOk, Naming, Cleared;
    OpsAfter(db, c);
    match c.res
    case NewPair(id, rec) =>
      if rec.sandbox in db.sandboxes {
        NamingIsOk(a, rec.sandbox, db.sandboxes[rec.sandbox], id, rec);
      }
    case DropPair(id) =>
      if id in db.pairs && db.pairs[id].sandbox in db.sandboxes {
        NamingIsOk(a, db.pairs[id].sandbox, db.sandboxes[db.pairs[id].sandbox], id, db.pairs[id]);
      }
    case _ =>
  }

  /** What is stored after a transaction, record by record: the operation, the one resource, its reference, and everything else as before. */
  lemma AfterShows(db: Db, c: Change)
    requires c.op.Some? && ResPermitted(db, c.op.value, c.res)
    ensures var t := After(db, c); var op := c.op.value;
            && t.ops == db.ops[op.binding.id := op]
            && match c.res
               case KeepRes => t.sandboxes == db.sandboxes && t.pairs == db.pairs
               case PutSandbox(id, rec) =>
                 t.pairs == db.pairs && id in t.sandboxes && t.sandboxes[id] == rec && t.sandboxes - {id} == db.sandboxes - {id}
               case DropSandbox(id) => t.pairs == db.pairs && id !in t.sandboxes && t.sandboxes == db.sandboxes - {id}
               case NewPair(id, rec) =>
                 && id in t.pairs && t.pairs[id] == rec && t.pairs - {id} == db.pairs
                 && rec.sandbox in t.sandboxes && t.sandboxes[rec.sandbox].current == Some((id, rec.attempt))
                 && SameButCurrent(db.sandboxes[rec.sandbox], t.sandboxes[rec.sandbox])
                 && t.sandboxes - {rec.sandbox} == db.sandboxes - {rec.sandbox}
               case PutPair(id, rec) =>
                 t.sandboxes == db.sandboxes && id in t.pairs && t.pairs[id] == rec && t.pairs - {id} == db.pairs - {id}
               case DropPair(id) =>
                 var s := db.pairs[id].sandbox;
                 && id !in t.pairs && t.pairs == db.pairs - {id}
                 && s in t.sandboxes && SameButCurrent(db.sandboxes[s], t.sandboxes[s])
                 && t.sandboxes[s].current == (if db.sandboxes[s].current == Some((id, db.pairs[id].attempt)) then None else db.sandboxes[s].current)
                 && t.sandboxes - {s} == db.sandboxes - {s}
  {
    hide HasActivePair, HasPair;
  }

  predicate SameButCurrent(a: SandboxRec, b: SandboxRec) {
    && a.resources == b.resources && a.value.(status := b.value.status) == b.value
    && a.value.status.(currentContainer := b.value.status.currentContainer, currentAttempt := b.value.status.currentAttempt) == b.value.status
  }

  /** How an operation write changes which creates are active. */
  lemma ActiveCreates(db: Db, c: Change, t: Target)
    requires c.op.Some? && OpPermitted(db, c) && forall i :: i in db.ops ==> OpInv(db, i)
    ensures HasActiveCreate(After(db, c), t) <==>
              if c.op.value.binding.target == t && (c.op.value.binding.id in db.ops || !HasActive(db, t))
              then IsActiveCreate(c.op.value) else HasActiveCreate(db, t)
  {
    hide AfterRes, HostPermitted;
    var op, after := c.op.value, After(db, c);
    var id := op.binding.id;
    assert after.ops == db.ops[id := op] by { OpsAfter(db, c); }
    if id in db.ops {
      assert OpInv(db, id);
    }
    if HasActiveCreate(after, t) {
      var i :| i in after.ops && IsActiveOn(after, i, t) && after.ops[i].binding.kind == Create;
      assert i != id ==> IsActiveOn(db, i, t);
    }
    if HasActiveCreate(db, t) {
      var i :| i in db.ops && IsActiveOn(db, i, t) && db.ops[i].binding.kind == Create;
      assert i != id ==> IsActiveOn(after, i, t);
    }
    if op.binding.target == t && IsActiveCreate(op) {
      assert IsActiveOn(after, id, t);
    }
  }

  lemma OpsAfter(db: Db, c: Change)
    ensures After(db, c).ops == if c.op.None? then db.ops else db.ops[c.op.value.binding.id := c.op.value]
    ensures After(db, c).sandboxes == AfterRes(db, c.res).sandboxes
    ensures After(db, c).pairs == AfterRes(db, c.res).pairs
  {
  }

  lemma OpInvKept(db: Db, c: Change, i: OpId)
    requires Inv(db) && Permitted(db, c) && i in After(db, c).ops
    ensures OpInv(After(db, c), i)
  {
    hide AfterRes, ResPermitted, HostPermitted;
    var after := After(db, c);
    OpsAfter(db, c);
    if c.op.Some? {
      var op := c.op.value;
      forall j | j in after.ops && after.ops[i].state == Running && IsActiveOn(after, j, after.ops[i].binding.target)
        ensures j == i
      {
        if i in db.ops { assert OpInv(db, i); }
        if j in db.ops { assert OpInv(db, j); }
        if j == op.binding.id && i != j && IsActiveOn(db, i, op.binding.target) {
          assert false;
        }
        if i == op.binding.id && i != j && IsActiveOn(db, j, op.binding.target) {
          assert false;
        }
      }
      if i in db.ops { assert OpInv(db, i); }
    } else {
      assert OpInv(db, i);
    }
  }

  /** The one active operation on a target decides whether a create is active there. */
  lemma ActiveDecides(db: Db, i: OpId)
    requires Inv(db) && i in db.ops && db.ops[i].state == Running
    ensures HasActiveCreate(db, db.ops[i].binding.target) <==> db.ops[i].binding.kind == Create
  {
    assert OpInv(db, i);
    assert IsActiveOn(db, i, db.ops[i].binding.target);
  }

  /** Without a resource change, whether a create is active on a target does not change either. */
  lemma KeepResCreates(db: Db, c: Change, t: Target)
    requires Inv(db) && Permitted(db, c) && c.res == KeepRes
    ensures HasActiveCreate(After(db, c), t) <==> HasActiveCreate(db, t)
  {
    if c.op.Some? {
      hide AfterRes, HostPermitted;
      ActiveCreates(db, c, t);
      if c.op.value.binding.id in db.ops {
        ActiveDecides(db, c.op.value.binding.id);
      }
    }
  }

  /** With a resource change, the operation decides whether a create is active on its target, and changes nothing elsewhere. */
  lemma ResCreates(db: Db, c: Change, t: Target)
    requires Inv(db) && Permitted(db, c) && c.res != KeepRes
    ensures c.op.Some?
    ensures HasActiveCreate(After(db, c), t) <==>
              if c.op.value.binding.target == t then IsActiveCreate(c.op.value) else HasActiveCreate(db, t)
  {
    hide AfterRes, HostPermitted;
    ActiveCreates(db, c, t);
  }

  lemma SandboxCreatesKept(db: Db, c: Change, s: string)
    requires Inv(db) && Permitted(db, c)
    ensures SandboxCreates(After(db, c), s)
  {
    hide HasActiveCreate, HasActive, HostPermitted, OpInv, PairPlaced, HasActivePair, HasPair;
    OpsAfter(db, c);
    assert SandboxCreates(db, s);
    if c.res == KeepRes {
      KeepResCreates(db, c, SandboxTarget(s));
    } else {
      ResCreates(db, c, SandboxTarget(s));
      assert ResPermitted(db, c.op.value, c.res);
      hide Inv, Permitted, After;
    }
  }

  lemma PairCreatesKept(db: Db, c: Change, p: string)
    requires Inv(db) && Permitted(db, c)
    ensures PairCreates(After(db, c), p)
  {
    hide HasActiveCreate, HasActive, HostPermitted, OpInv, PairPlaced, HasActivePair, HasPair;
    OpsAfter(db, c);
    assert PairCreates(db, p);
    if c.res == KeepRes {
      KeepResCreates(db, c, ContainerTarget(p));
    } else {
      ResCreates(db, c, ContainerTarget(p));
      assert ResPermitted(db, c.op.value, c.res);
      hide Inv, Permitted, After;
    }
  }

  lemma NamesAfterRes(db: Db, op: Op, r: ResChange, s: string)
    requires forall x :: x in db.sandboxes ==> SandboxNames(db, x)
    requires ResPermitted(db, op, r) && s in AfterRes(db, r).sandboxes
    ensures SandboxNames(AfterRes(db, r), s)
  {
    hide HasActivePair, HasPair;
    if s in db.sandboxes {
      assert SandboxNames(db, s);
      if r.DropPair? && db.sandboxes[s].current.Some? {
        var named := db.sandboxes[s].current.value;
        assert named == (named.0, named.1);
      }
    }
  }

  lemma SandboxNamesKept(db: Db, c: Change, s: string)
    requires Inv(db) && Permitted(db, c) && s in After(db, c).sandboxes
    ensures SandboxNames(After(db, c), s)
  {
    OpsAfter(db, c);
    hide AfterRes, ResPermitted, HostPermitted, OpPermitted, After;
    if c.op.Some? {
      NamesAfterRes(db, c.op.value, c.res, s);
    } else {
      KeepResKeeps(db, c);
    }
    SameNames(AfterRes(db, c.res), After(db, c), s);
  }

  lemma KeepResKeeps(db: Db, c: Change)
    ensures AfterRes(db, KeepRes) == db
  {
  }

  lemma SameNames(a: Db, b: Db, s: string)
    requires a.sandboxes == b.sandboxes && a.pairs == b.pairs && s in a.sandboxes
    ensures SandboxNames(a, s) <==> SandboxNames(b, s)
  {
  }

  lemma SamePlaces(a: Db, b: Db, p: string)
    requires a.sandboxes == b.sandboxes && a.pairs == b.pairs && p in a.pairs
    ensures PairPlaced(a, p) <==> PairPlaced(b, p)
  {
  }

  lemma PlacesAfterRes(db: Db, op: Op, r: ResChange, p: string)
    requires forall x :: x in db.pairs ==> PairPlaced(db, x)
    requires ResPermitted(db, op, r) && p in AfterRes(db, r).pairs
    requires r.PutSandbox? && r.sandbox in db.sandboxes && r.srec.phase == SandboxCreating ==> db.sandboxes[r.sandbox].phase == SandboxCreating
    ensures PairPlaced(AfterRes(db, r), p)
  {
    if p in db.pairs {
      assert PairPlaced(db, p);
    }
  }

  lemma PairPlacedKept(db: Db, c: Change, p: string)
    requires Inv(db) && Permitted(db, c) && p in After(db, c).pairs
    ensures PairPlaced(After(db, c), p)
  {
    OpsAfter(db, c);
    if c.res.PutSandbox? {
      CreatingIsNew(db, c);
    }
    hide AfterRes, ResPermitted, HostPermitted, OpPermitted, After;
    if c.op.Some? {
      PlacesAfterRes(db, c.op.value, c.res, p);
    } else {
      KeepResKeeps(db, c);
    }
    SamePlaces(AfterRes(db, c.res), After(db, c), p);
  }

  /** A Sandbox is put as Creating only when it is new or already Creating. */
  lemma CreatingIsNew(db: Db, c: Change)
    requires Inv(db) && Permitted(db, c) && c.res.PutSandbox?
    ensures c.res.srec.phase == SandboxCreating && c.res.sandbox in db.sandboxes
            ==> db.sandboxes[c.res.sandbox].phase == SandboxCreating
  {
    hide HostPermitted;
  }

  lemma OthersAreIdle(db: Db, sandbox: string)
    ensures !HasActivePair(db, sandbox) ==>
              forall p :: p in db.pairs && db.pairs[p].sandbox == sandbox ==> !IsActiveAttempt(db.pairs[p].phase)
  {
  }

  lemma NamedAfterRes(db: Db, op: Op, r: ResChange, p: string)
    requires forall x :: x in db.pairs ==> ActiveIsNamed(db, x)
    requires ResPermitted(db, op, r) && p in AfterRes(db, r).pairs
    requires p in db.pairs ==> db.pairs[p].sandbox in db.sandboxes && db.sandboxes[db.pairs[p].sandbox].phase != SandboxAbsent
    ensures ActiveIsNamed(AfterRes(db, r), p)
  {
    hide HasActiveCreate, HasPair;
    if p in db.pairs {
      assert ActiveIsNamed(db, p);
    }
    if r.NewPair? {
      OthersAreIdle(db, r.prec.sandbox);
    } else if r.DropSandbox? {
      NoPairLeft(db, r.sandbox);
    }
    hide HasActivePair;
  }

  lemma NoPairLeft(db: Db, sandbox: string)
    ensures !HasPair(db, sandbox) ==> forall p :: p in db.pairs ==> db.pairs[p].sandbox != sandbox
  {
  }

  lemma SameNamed(a: Db, b: Db, p: string)
    requires a.sandboxes == b.sandboxes && a.pairs == b.pairs && p in a.pairs
    ensures ActiveIsNamed(a, p) <==> ActiveIsNamed(b, p)
  {
  }

  lemma ActiveIsNamedKept(db: Db, c: Change, p: string)
    requires Inv(db) && Permitted(db, c) && p in After(db, c).pairs
    ensures ActiveIsNamed(After(db, c), p)
  {
    hide OpInv, SandboxCreates, PairCreates, HasActiveCreate, HasActive, OpPermitted, HostPermitted, ActiveIsNamed;
    OpsAfter(db, c);
    if p in db.pairs {
      assert PairPlaced(db, p);
      assert SandboxNames(db, db.pairs[p].sandbox);
    }
    hide AfterRes, ResPermitted, After, SandboxNames, PairPlaced;
    if c.op.Some? {
      NamedAfterRes(db, c.op.value, c.res, p);
    } else {
      KeepResKeeps(db, c);
    }
    SameNamed(AfterRes(db, c.res), After(db, c), p);
  }

  /** Every permitted change keeps the invariant. */
  lemma InvKept(db: Db, c: Change)
    requires Inv(db) && Permitted(db, c)
    ensures Inv(After(db, c))
  {
    hide OpInv, SandboxCreates, SandboxNames, PairCreates, PairPlaced, ActiveIsNamed, Permitted, After;
    var after := After(db, c);
    forall i | i in after.ops ensures OpInv(after, i) { OpInvKept(db, c, i); }
    forall s: string ensures SandboxCreates(after, s) { SandboxCreatesKept(db, c, s); }
    forall s | s in after.sandboxes ensures SandboxNames(after, s) { SandboxNamesKept(db, c, s); }
    forall p: string ensures PairCreates(after, p) { PairCreatesKept(db, c, p); }
    forall p | p in after.pairs ensures PairPlaced(after, p) { PairPlacedKept(db, c, p); }
    forall p | p in after.pairs ensures ActiveIsNamed(after, p) { ActiveIsNamedKept(db, c, p); }
  }

  /** A run: records joined by transactions, from an empty store. */
  ghost predicate IsRun(run: seq<Db>, changes: seq<Change>) {
    && |run| == |changes| + 1
    && run[0] == EMPTY
    && forall i :: 0 <= i < |changes| ==> Permitted(run[i], changes[i]) && run[i + 1] == After(run[i], changes[i])
  }

  lemma EmptyInv()
    ensures Inv(EMPTY)
  {
  }

  lemma {:induction false} RunKeepsInv(run: seq<Db>, changes: seq<Change>, i: nat)
    requires IsRun(run, changes) && i < |run|
    ensures Inv(run[i])
  {
    hide Inv, After, Permitted;
    if i == 0 {
      EmptyInv();
    } else {
      RunKeepsInv(run, changes, i - 1);
      InvKept(run[i - 1], changes[i - 1]);
    }
  }

  /** An operation, once stored, is never forgotten or bound to anything else; once terminal it never changes at all. */
  lemma {:induction false} OutcomesAreImmutable(run: seq<Db>, changes: seq<Change>, i: nat, j: nat, id: OpId)
    requires IsRun(run, changes) && i <= j < |run| && id in run[i].ops
    ensures id in run[j].ops
    ensures run[j].ops[id].binding == run[i].ops[id].binding
    ensures run[i].ops[id].state != Running ==> run[j].ops[id] == run[i].ops[id]
    decreases j - i
  {
    if i < j {
      OutcomesAreImmutable(run, changes, i, j - 1, id);
      hide AfterRes, ResPermitted, OpInv, HostPermitted;
      OpsAfter(run[j - 1], changes[j - 1]);
    }
  }

  /** A transaction that stores an operation under an ID never used before: the ID resolves as new. */
  predicate ResolvesNew(db: Db, c: Change, id: OpId) {
    c.op.Some? && c.op.value.binding.id == id && id !in db.ops
  }

  /** An ID resolves as new at most once over a whole run. */
  lemma NewAtMostOnce(run: seq<Db>, changes: seq<Change>, i: nat, j: nat, id: OpId)
    requires IsRun(run, changes) && i < |changes| && j < |changes|
    requires ResolvesNew(run[i], changes[i], id) && ResolvesNew(run[j], changes[j], id)
    ensures i == j
  {
    hide Permitted, AfterRes;
    var first, last := if i < j then i else j, if i < j then j else i;
    if first < last {
      OpsAfter(run[first], changes[first]);
      OutcomesAreImmutable(run, changes, first + 1, last, id);
    }
  }

  /** No target ever has two active operations. */
  lemma OneActiveOperation(run: seq<Db>, changes: seq<Change>, k: nat, i: OpId, j: OpId)
    requires IsRun(run, changes) && k < |run|
    requires i in run[k].ops && j in run[k].ops
    requires run[k].ops[i].state == Running && run[k].ops[j].state == Running
    requires run[k].ops[i].binding.target == run[k].ops[j].binding.target
    ensures i == j
  {
    RunKeepsInv(run, changes, k);
    assert OpInv(run[k], i) && IsActiveOn(run[k], j, run[k].ops[i].binding.target);
  }

  /** Creating means exactly that a create is active, for Sandboxes and for Containers. */
  lemma CreatingIffActiveCreate(run: seq<Db>, changes: seq<Change>, k: nat, id: string)
    requires IsRun(run, changes) && k < |run|
    ensures id in run[k].sandboxes && run[k].sandboxes[id].phase == SandboxCreating <==> HasActiveCreate(run[k], SandboxTarget(id))
    ensures id in run[k].pairs && run[k].pairs[id].phase == AttemptCreating <==> HasActiveCreate(run[k], ContainerTarget(id))
  {
    hide HasActiveCreate;
    RunKeepsInv(run, changes, k);
    assert SandboxCreates(run[k], id) && PairCreates(run[k], id);
  }

  /** At most one active Attempt in a Sandbox, and only in a Sandbox that exists and is Ready. */
  lemma OneActiveAttempt(run: seq<Db>, changes: seq<Change>, k: nat, p: string, q: string)
    requires IsRun(run, changes) && k < |run|
    requires p in run[k].pairs && IsActiveAttempt(run[k].pairs[p].phase)
    requires q in run[k].pairs && IsActiveAttempt(run[k].pairs[q].phase) && run[k].pairs[q].sandbox == run[k].pairs[p].sandbox
    ensures p == q
    ensures run[k].pairs[p].sandbox in run[k].sandboxes && run[k].sandboxes[run[k].pairs[p].sandbox].phase == SandboxReady
  {
    RunKeepsInv(run, changes, k);
    assert PairPlaced(run[k], p) && ActiveIsNamed(run[k], p) && ActiveIsNamed(run[k], q);
  }

  /** The active Attempt of a Sandbox is the one that the Sandbox names as current. */
  lemma ActiveIsCurrent(run: seq<Db>, changes: seq<Change>, k: nat, p: string)
    requires IsRun(run, changes) && k < |run|
    requires p in run[k].pairs && IsActiveAttempt(run[k].pairs[p].phase)
    ensures run[k].pairs[p].sandbox in run[k].sandboxes
    ensures run[k].sandboxes[run[k].pairs[p].sandbox].current == Some((p, run[k].pairs[p].attempt))
  {
    RunKeepsInv(run, changes, k);
    assert ActiveIsNamed(run[k], p);
  }

  /** No pair outlives its Sandbox, and a Sandbox that names a pair names an existing one of its own. */
  lemma ReferencesHold(run: seq<Db>, changes: seq<Change>, k: nat)
    requires IsRun(run, changes) && k < |run|
    ensures forall p :: p in run[k].pairs ==> run[k].pairs[p].sandbox in run[k].sandboxes
    ensures forall s :: s in run[k].sandboxes && run[k].sandboxes[s].current.Some? ==>
              var (c, a) := run[k].sandboxes[s].current.value;
              c in run[k].pairs && run[k].pairs[c].sandbox == s && run[k].pairs[c].attempt == a
  {
    RunKeepsInv(run, changes, k);
    forall p | p in run[k].pairs ensures run[k].pairs[p].sandbox in run[k].sandboxes { assert PairPlaced(run[k], p); }
    forall s | s in run[k].sandboxes ensures SandboxNames(run[k], s) { }
  }
}
