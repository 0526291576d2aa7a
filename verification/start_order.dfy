/**
 The checkpoints of a Linux Start. A workload is observed only after its gate
 was released, and the gate is released only after it was attached to its
 cgroup: no accepted history of checkpoints shows another order.
 */
module StartOrder {
  import opened Operations

  /** A checkpoint that may not follow the stage an operation is at. */
  predicate Refused(profile: HostProfile, kind: OpType, current: Stage, requested: Stage) {
    if profile != LinuxM2 || kind != Start || current == requested then false
    else if current.Rank() < AttachCgroup.Rank() && requested.Rank() > AttachCgroup.Rank() then true
    else if current == AttachCgroup && requested.Rank() > AttachCgroup.Rank() && requested != ReleaseStartGate then true
    else ReleaseStartGate.Rank() <= current.Rank() < ObserveProcess.Rank()
         && requested.Rank() > ReleaseStartGate.Rank() && requested != ObserveProcess
  }

  /** Confirmation needs a checkpoint at least this far, on a Linux host only. */
  predicate StageReached(profile: HostProfile, current: Stage, minimum: Stage) {
    profile == LinuxM2 ==> current.Rank() >= minimum.Rank()
  }

  /** The stages a Linux Start went through, from its intent on. */
  predicate IsHistory(stages: seq<Stage>) {
    && |stages| > 0 && stages[0] == PersistIntent
    && forall i :: 0 < i < |stages| ==>
         stages[i] == stages[i - 1] || (stages[i].IsCheckpoint() && !Refused(LinuxM2, Start, stages[i - 1], stages[i]))
  }

  /** Attachment was checkpointed at a, release at r, after it. */
  predicate ReleasedAfterAttach(stages: seq<Stage>, a: nat, r: nat) {
    a < r < |stages| && stages[a] == AttachCgroup && stages[r] == ReleaseStartGate
  }

  /** All three acknowledgements, in their order. */
  predicate InOrder(stages: seq<Stage>, a: nat, r: nat, o: nat) {
    ReleasedAfterAttach(stages, a, r) && r < o < |stages| && stages[o] == ObserveProcess
  }

  ghost predicate Acknowledged(stages: seq<Stage>) {
    exists a, r, o :: InOrder(stages, a, r, o)
  }

  /** Getting past the attachment takes a release right after one; getting past the release takes an observation. */
  lemma {:induction false} OrderSoFar(stages: seq<Stage>, n: nat)
    returns (a: nat, r: nat, o: nat)
    requires IsHistory(stages) && n < |stages|
    ensures stages[n].Rank() >= ReleaseStartGate.Rank() ==> ReleasedAfterAttach(stages[..n + 1], a, r)
    ensures stages[n].Rank() >= SignalProcess.Rank() ==> InOrder(stages[..n + 1], a, r, o)
  {
    a, r, o := 0, 0, 0;
    if n > 0 {
      a, r, o := OrderSoFar(stages, n - 1);
      var before, now := stages[n - 1], stages[n];
      assert before != now ==> !Refused(LinuxM2, Start, before, now);
      if now.Rank() >= ReleaseStartGate.Rank() {
        if before == AttachCgroup {
          a, r := n - 1, n;
        } else {
          assert before.Rank() >= ReleaseStartGate.Rank();
          if before == ReleaseStartGate && now != before {
            o := n;
          }
        }
      }
    }
  }

  /** Reaching observation or any later stage shows attachment, release and observation, in that order. */
  lemma StartOrdering(stages: seq<Stage>, n: nat)
    requires IsHistory(stages) && n < |stages|
    requires stages[n].Rank() >= ObserveProcess.Rank()
    ensures Acknowledged(stages[..n + 1])
  {
    var a, r, o := OrderSoFar(stages, n);
  }

  /**
   Running is confirmed, and a start that already ended is recorded, only for
   an operation whose stage reached observation, so both come after all three.
   */
  lemma ConfirmedAfterOrder(stages: seq<Stage>)
    requires IsHistory(stages)
    requires StageReached(LinuxM2, stages[|stages| - 1], ObserveProcess)
    ensures Acknowledged(stages)
  {
    StartOrdering(stages, |stages| - 1);
    assert stages[..|stages|] == stages;
  }

  /** The order is not merely kept but required: each of the three gates refuses every way around it. */
  lemma NoWayAround(current: Stage, requested: Stage)
    requires requested.IsCheckpoint() && current != requested
    ensures !Refused(LinuxM2, Start, current, requested) <==>
              || requested.Rank() <= AttachCgroup.Rank()
              || (current == AttachCgroup && requested == ReleaseStartGate)
              || (current.Rank() > AttachCgroup.Rank() && requested == ReleaseStartGate)
              || ((current == ReleaseStartGate || current == SignalProcess) && requested == ObserveProcess)
              || current.Rank() >= ObserveProcess.Rank()
  {
  }
}
