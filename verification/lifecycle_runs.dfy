/**
 What whole runs of lifecycle transactions show of host resources: a workload
 runs only after its start went through its acknowledgements in order, an
 inventory is what its create recorded, and nothing is forgotten without proof.
 */
module LifecycleRuns {
  import opened Results
  import opened Domain
  import opened Operations
  import opened LifecycleStore
  import StartOrder
  import TeardownOrder
  import Acquisition

  /** The stages operation id was at, from the state that first holds it up to state k. */
  function Stages(run: seq<Db>, id: OpId, k: nat): seq<Stage>
    requires k < |run|
  {
    if id !in run[k].ops then []
    else (if k == 0 then [] else Stages(run, id, k - 1)) + [run[k].ops[id].stage]
  }

  lemma StepOps(run: seq<Db>, changes: seq<Change>, k: nat, id: OpId)
    requires IsRun(run, changes) && k < |changes| && id in run[k + 1].ops
    ensures id !in run[k].ops || run[k + 1].ops[id] != run[k].ops[id] ==>
              && changes[k].op == Some(run[k + 1].ops[id])
              && run[k + 1].ops[id].binding.id == id
              && OpPermitted(run[k], changes[k]) && StagePermitted(run[k], run[k + 1].ops[id])
  {
    hide AfterRes, ResPermitted, OpPermitted, StagePermitted;
    OpsAfter(run[k], changes[k]);
    if changes[k].op.Some? {
      HostParts(run[k], changes[k]);
    }
  }

  lemma HostParts(db: Db, c: Change)
    requires Permitted(db, c) && c.op.Some?
    ensures StagePermitted(db, c.op.value)
  {
    hide OpPermitted, ResPermitted, StagePermitted;
  }

  /** An active Linux start went through nothing but accepted checkpoints. */
  lemma {:induction false} StagesAreHistory(run: seq<Db>, changes: seq<Change>, id: OpId, k: nat)
    requires IsRun(run, changes) && k < |run| && id in run[k].ops
    requires var op := run[k].ops[id]; op.state == Running && op.profile == LinuxM2 && op.binding.kind == Start
    ensures StartOrder.IsHistory(Stages(run, id, k))
    ensures Stages(run, id, k)[|Stages(run, id, k)| - 1] == run[k].ops[id].stage
  {
    hide StartOrder.Refused;
    if k > 0 {
      StepOps(run, changes, k - 1, id);
      if id in run[k - 1].ops {
        StagesAreHistory(run, changes, id, k - 1);
      }
    }
  }

  /** The step that makes a workload Running is a confirmed start whose observation was checkpointed. */
  lemma RunningStep(db: Db, c: Change, p: string)
    requires Permitted(db, c)
    requires p in After(db, c).pairs && After(db, c).pairs[p].phase == AttemptRunning
    requires p in db.pairs ==> db.pairs[p].phase != AttemptRunning
    ensures c.op.Some? && c.op.value.binding.id in db.ops
    ensures var op := db.ops[c.op.value.binding.id];
            && op.binding == c.op.value.binding && op.binding.kind == Start && op.binding.target == ContainerTarget(p)
            && op.state == Running && op.profile == c.op.value.profile
            && StartOrder.StageReached(op.profile, op.stage, ObserveProcess)
  {
    hide HasActive, HasActivePair, HasPair, StagePermitted, HandsOver, Proven;
    OpsAfter(db, c);
  }

  /**
   Whenever a workload becomes Running on a Linux host, attachment, gate release
   and observation had been checkpointed for its start, in that order.
   */
  lemma RunningOnlyInOrder(run: seq<Db>, changes: seq<Change>, k: nat, p: string)
    requires IsRun(run, changes) && k < |changes|
    requires p in run[k + 1].pairs && run[k + 1].pairs[p].phase == AttemptRunning
    requires p in run[k].pairs ==> run[k].pairs[p].phase != AttemptRunning
    requires changes[k].op.Some? ==> changes[k].op.value.profile == LinuxM2
    ensures changes[k].op.Some?
    ensures StartOrder.Acknowledged(Stages(run, changes[k].op.value.binding.id, k))
  {
    hide Permitted, After;
    RunningStep(run[k], changes[k], p);
    var id := changes[k].op.value.binding.id;
    StagesAreHistory(run, changes, id, k);
    StartOrder.ConfirmedAfterOrder(Stages(run, id, k));
  }

  /** A start that ended before Running was confirmed shows the same order when its end is recorded. */
  lemma StartEndsOnlyInOrder(run: seq<Db>, changes: seq<Change>, k: nat)
    requires IsRun(run, changes) && k < |changes|
    requires changes[k].op.Some? && changes[k].op.value.profile == LinuxM2
    requires changes[k].op.value.binding.kind == Start && MovesPair(run[k], changes[k])
    ensures StartOrder.Acknowledged(Stages(run, changes[k].op.value.binding.id, k))
  {
    StartPutStep(run[k], changes[k]);
    hide Permitted, After;
    var id := changes[k].op.value.binding.id;
    StagesAreHistory(run, changes, id, k);
    StartOrder.ConfirmedAfterOrder(Stages(run, id, k));
  }

  /** The change moves a stored Attempt to another phase. */
  predicate MovesPair(db: Db, c: Change) {
    c.res.PutPair? && c.res.container in db.pairs && c.res.prec.phase != db.pairs[c.res.container].phase
  }

  lemma StartPutStep(db: Db, c: Change)
    requires Permitted(db, c) && c.op.Some? && c.op.value.binding.kind == Start && MovesPair(db, c)
    ensures c.op.value.binding.id in db.ops
    ensures var op := db.ops[c.op.value.binding.id];
            && op.binding == c.op.value.binding && op.state == Running && op.profile == c.op.value.profile
            && StartOrder.StageReached(op.profile, op.stage, ObserveProcess)
  {
    hide HasActive, HasActivePair, HasPair, StagePermitted, HandsOver, Proven;
  }

  /** What a pair's inventory can be after a step: what it was, nothing for a new pair, or what its create hands over. */
  lemma InventoryStep(db: Db, c: Change, p: string)
    requires Permitted(db, c) && p in After(db, c).pairs
    ensures var after := After(db, c).pairs[p].resources;
            || (p in db.pairs && after == db.pairs[p].resources)
            || (p !in db.pairs && after == [])
            || (c.op.Some? && c.op.value.binding.target == ContainerTarget(p) && HandsOver(db, c.op.value, after))
  {
    hide HasActive, HasActivePair, HasPair, StagePermitted, HandsOver, Proven;
    OpsAfter(db, c);
  }

  /** Every inventory entry of every pair is adopted, in every state of every run. */
  lemma {:induction false} InventoriesAreAdopted(run: seq<Db>, changes: seq<Change>, k: nat, p: string)
    requires IsRun(run, changes) && k < |run| && p in run[k].pairs
    ensures forall i :: 0 <= i < |run[k].pairs[p].resources| ==> run[k].pairs[p].resources[i].adopted
  {
    if k > 0 {
      InventoryStep(run[k - 1], changes[k - 1], p);
      if p in run[k - 1].pairs {
        InventoriesAreAdopted(run, changes, k - 1, p);
      }
    }
  }

  /** A pair that disappears with an inventory was deleted by an operation whose durable proofs cover all of it. */
  lemma PairForgottenOnlyWithProof(run: seq<Db>, changes: seq<Change>, k: nat, p: string)
    requires IsRun(run, changes) && k < |changes|
    requires p in run[k].pairs && p !in run[k + 1].pairs && run[k].pairs[p].resources != []
    ensures changes[k].op.Some? && changes[k].op.value.binding.id in run[k].ops
    ensures var op := run[k].ops[changes[k].op.value.binding.id];
            && op.binding.kind == Delete && op.binding.target == ContainerTarget(p) && op.state == Running
            && TeardownOrder.Covers(op.releases, run[k].pairs[p].resources)
  {
    hide HasActive, HasActivePair, HasPair, StagePermitted, HandsOver, TeardownOrder.Covers;
    OpsAfter(run[k], changes[k]);
  }

  /** The same for Sandboxes. */
  lemma SandboxForgottenOnlyWithProof(run: seq<Db>, changes: seq<Change>, k: nat, s: string)
    requires IsRun(run, changes) && k < |changes|
    requires s in run[k].sandboxes && s !in run[k + 1].sandboxes && run[k].sandboxes[s].resources != []
    ensures changes[k].op.Some? && changes[k].op.value.binding.id in run[k].ops
    ensures var op := run[k].ops[changes[k].op.value.binding.id];
            && op.binding.kind == Delete && op.binding.target == SandboxTarget(s) && op.state == Running
            && TeardownOrder.Covers(op.releases, run[k].sandboxes[s].resources)
  {
    hide HasActive, HasActivePair, HasPair, StagePermitted, HandsOver, TeardownOrder.Covers;
    OpsAfter(run[k], changes[k]);
  }
}
