/**
 Killing a Container: one initial signal, a deadline anchored at its delivery,
 and at most then a stronger signal. Calls on one Container are serialized by
 its target lock; the process may stop at any point inside a call, and later
 calls, watchers and recovery go on from what is durable.
 */
module KillDeadline {
  import opened Results
  import opened Operations

  /** What reaches the outside world or the durable record, in order. */
  datatype Event =
    | SentInitial
    | Checkpointed(deliveredAt: int)
    | Observed(terminal: bool)
    | ReadClock(now: int)
    | SentEscalation

  /** The initial signal is never sent once its delivery is recorded, and it is recorded once. */
  predicate InitialOnce(t: seq<Event>) {
    forall p, q :: 0 <= p < q < |t| && t[p].Checkpointed? ==> !t[q].SentInitial? && !t[q].Checkpointed?
  }

  /** The deadline that the recorded delivery fixed. */
  function Deadline(t: seq<Event>, grace: int): Option<int> {
    if t == [] then None
    else if t[|t| - 1].Checkpointed? then Some(t[|t| - 1].deliveredAt + grace)
    else Deadline(t[..|t| - 1], grace)
  }

  /** Event k follows an observation that was not terminal and a clock reading at or past the deadline, with nothing between. */
  predicate Due(t: seq<Event>, grace: int, k: nat)
    requires k <= |t|
  {
    && k >= 2 && t[k - 2] == Observed(false) && t[k - 1].ReadClock?
    && Deadline(t[..k], grace).Some? && t[k - 1].now >= Deadline(t[..k], grace).value
  }

  predicate EscalatedWhenDue(t: seq<Event>, grace: int) {
    forall k :: 0 <= k < |t| && t[k].SentEscalation? ==> Due(t, grace, k)
  }

  predicate Safe(t: seq<Event>, grace: int) {
    InitialOnce(t) && EscalatedWhenDue(t, grace)
  }

  /** From event n on, every due moment but perhaps the last is answered at once by the stronger signal. */
  predicate Answered(t: seq<Event>, grace: int, n: nat) {
    forall k :: n + 2 <= k < |t| && Due(t, grace, k) ==> t[k].SentEscalation?
  }

  /** From event n on, no due moment was left without the stronger signal. */
  predicate NoneMissed(t: seq<Event>, grace: int, n: nat) {
    Answered(t, grace, n) && (n + 2 <= |t| ==> !Due(t, grace, |t|))
  }

  lemma AnsweredGrows(t: seq<Event>, e: Event, grace: int, n: nat)
    requires Answered(t, grace, n) && (n + 2 <= |t| && Due(t, grace, |t|) ==> e.SentEscalation?)
    ensures Answered(t + [e], grace, n)
    ensures !e.ReadClock? ==> NoneMissed(t + [e], grace, n)
    ensures e.ReadClock? && !(t != [] && t[|t| - 1] == Observed(false)) ==> NoneMissed(t + [e], grace, n)
    ensures e.ReadClock? && (Deadline(t, grace).None? || e.now < Deadline(t, grace).value) ==> NoneMissed(t + [e], grace, n)
  {
    var u := t + [e];
    forall k | n + 2 <= k < |u| && Due(u, grace, k)
      ensures u[k].SentEscalation?
    {
      assert u[..k] == t[..k];
    }
    assert u[..|u|] == u;
    DeadlineGrows(t, e, grace);
  }

  lemma NothingYet(t: seq<Event>, grace: int)
    ensures NoneMissed(t, grace, |t|)
  {
  }

  /** A look that was not terminal and a clock at or past the deadline make the moment due. */
  lemma DueNow(t: seq<Event>, now: int, grace: int)
    ensures var u := t + [Observed(false)] + [ReadClock(now)];
            Deadline(u, grace) == Deadline(t, grace)
            && (Deadline(t, grace).Some? && now >= Deadline(t, grace).value ==> Due(u, grace, |u|))
  {
    var u := t + [Observed(false)] + [ReadClock(now)];
    DeadlineGrows(t, Observed(false), grace);
    DeadlineGrows(t + [Observed(false)], ReadClock(now), grace);
    assert u[..|u|] == u;
  }

  lemma MissedNeedsAnswered(t: seq<Event>, grace: int, n: nat)
    requires NoneMissed(t, grace, n)
    ensures Answered(t, grace, n) && (n + 2 <= |t| ==> !Due(t, grace, |t|))
  {
  }

  /** Before any clock reading nothing is due. */
  lemma ShortIsAnswered(t: seq<Event>, grace: int, n: nat)
    requires forall k :: n <= k < |t| ==> !t[k].ReadClock?
    ensures NoneMissed(t, grace, n)
  {
  }

  lemma AnsweredLater(t: seq<Event>, u: seq<Event>, grace: int, n: nat)
    requires t <= u && NoneMissed(t, grace, n) && n <= |t|
    requires (forall k :: n <= k < |t| ==> !t[k].ReadClock?) && (|t| < |u| ==> !u[|t|].ReadClock?)
    ensures Answered(u, grace, |t|) ==> Answered(u, grace, n)
    ensures NoneMissed(u, grace, |t|) ==> NoneMissed(u, grace, n)
  {
  }

  lemma DeadlineGrows(t: seq<Event>, e: Event, grace: int)
    ensures Deadline(t + [e], grace) == if e.Checkpointed? then Some(e.deliveredAt + grace) else Deadline(t, grace)
  {
    assert (t + [e])[..|t|] == t;
  }

  lemma {:induction false} NoDeadlineNoCheckpoint(t: seq<Event>, grace: int)
    requires Deadline(t, grace).None?
    ensures forall p :: 0 <= p < |t| ==> !t[p].Checkpointed?
  {
    if t != [] {
      NoDeadlineNoCheckpoint(t[..|t| - 1], grace);
    }
  }

  /** What one more event needs for the trace to stay safe. */
  lemma SafeGrows(t: seq<Event>, e: Event, grace: int)
    requires Safe(t, grace)
    requires e.SentInitial? || e.Checkpointed? ==> Deadline(t, grace).None?
    requires e.SentEscalation? ==> Due(t, grace, |t|)
    ensures Safe(t + [e], grace)
  {
    var u := t + [e];
    if Deadline(t, grace).None? {
      NoDeadlineNoCheckpoint(t, grace);
    }
    forall k | 0 <= k < |u| && u[k].SentEscalation?
      ensures Due(u, grace, k)
    {
      assert u[..k] == t[..k];
    }
    forall p, q | 0 <= p < q < |u| && u[p].Checkpointed?
      ensures !u[q].SentInitial? && !u[q].Checkpointed?
    {
      assert u[p] == t[p];
    }
  }

  /** The first recorded delivery fixes the deadline for good: no later event of a safe trace changes it. */
  lemma {:induction false} DeadlineNeverChanges(t: seq<Event>, p: nat, grace: int)
    requires InitialOnce(t) && p < |t| && t[p].Checkpointed?
    ensures Deadline(t, grace) == Some(t[p].deliveredAt + grace)
    decreases |t|
  {
    if p < |t| - 1 {
      var u := t[..|t| - 1];
      assert forall i :: 0 <= i < |u| ==> u[i] == t[i];
      DeadlineNeverChanges(u, p, grace);
    }
  }

  /** The stages from which a call goes on with a kill. */
  predicate Resumable(s: Stage) {
    s == PersistIntent || s == SignalProcess || s == ObserveProcess
  }

  class Kill {
    /** Providers deliver and answer, the store answers, and nothing stops a call. No call changes it. */
    var reliable: bool

    /** The Attempt is over whenever it is looked at. No call changes it. */
    var ends: bool

    /** The policy's grace period, fixed by the request's fingerprint. */
    const grace: int

    /** Durable: the stage of the operation while active, its escalation deadline, and whether it ended as a kill or was failed. */
    var stage: Stage
    var deadline: Option<int>
    var terminal: bool
    var failed: bool

    ghost var trace: seq<Event>

    ghost predicate Valid()
      reads this
    {
      && grace >= 0
      && Safe(trace, grace)
      && deadline == Deadline(trace, grace)
      && (stage == PersistIntent || stage == CheckPreconditions ==> deadline.None?)
      && (stage == SignalProcess ==> deadline.Some?)
      && (stage == ObserveProcess || terminal ==> Observed(true) in trace)
    }

    /** Everything works, and the Attempt ends. */
    predicate Sound()
      reads this
    {
      reliable && ends
    }

    /** What a call on a reliable system leaves that did not end the kill: it escalated, or its wait stopped before the deadline. */
    ghost predicate Pursued(n: nat)
      requires n <= |trace|
      reads this
    {
      || SentEscalation in trace[n..]
      || (|trace| >= 2 && trace[|trace| - 2] == Observed(false) && trace[|trace| - 1].ReadClock?
          && deadline.Some? && trace[|trace| - 1].now < deadline.value)
      || (deadline.None? && trace != [] && trace[|trace| - 1] == Observed(false))
    }

    predicate Over()
      reads this
    {
      terminal || failed
    }

    constructor (grace: int, reliable: bool, ends: bool)
      requires grace >= 0
      ensures Valid() && this.grace == grace && this.reliable == reliable && this.ends == ends
      ensures stage == PersistIntent && deadline.None? && !Over() && trace == []
    {
      this.grace, this.reliable, this.ends := grace, reliable, ends;
      stage, deadline, terminal, failed, trace := PersistIntent, None, false, false, [];
    }

    ghost method Note(e: Event)
      requires Valid() && !e.Checkpointed?
      requires e.SentInitial? ==> deadline.None?
      requires e.SentEscalation? ==> Due(trace, grace, |trace|)
      modifies this`trace
      ensures Valid() && trace == old(trace) + [e]
    {
      SafeGrows(trace, e, grace);
      DeadlineGrows(trace, e, grace);
      trace := trace + [e];
    }

    /** Delivers a signal, or fails with or without having delivered it. */
    method SendInitial() returns (deliveredAt: Option<int>)
      requires Valid() && deadline.None?
      modifies this`trace
      ensures Valid() && old(trace) <= trace
      ensures trace == old(trace) || trace == old(trace) + [SentInitial]
      ensures reliable ==> deliveredAt.Some? && trace == old(trace) + [SentInitial]
      ensures deliveredAt.Some? ==> trace == old(trace) + [SentInitial]
    {
      var effect: bool, confirmed: bool, at: int := *, *, *;
      if effect || reliable {
        Note(SentInitial);
      }
      deliveredAt := if reliable || (effect && confirmed) then Some(at) else None;
    }

    method Observe() returns (observed: Option<bool>)
      requires Valid()
      modifies this`trace
      ensures Valid() && old(trace) <= trace
      ensures trace == if observed.Some? then old(trace) + [Observed(observed.value)] else old(trace)
      ensures reliable ==> observed.Some?
      ensures ends && observed.Some? ==> observed == Some(true)
    {
      var fails: bool, over: bool := *, *;
      if fails && !reliable {
        return None;
      }
      over := over || ends;
      Note(Observed(over));
      observed := Some(over);
    }

    method Now() returns (now: int)
      requires Valid()
      modifies this`trace
      ensures Valid() && trace == old(trace) + [ReadClock(now)]
    {
      now := *;
      Note(ReadClock(now));
    }

    /** Binds the first verified delivery to its deadline in one durable write; the answer may be lost. An intent never has a deadline yet, so a retry cannot find a different one. */
    method CheckpointKillSignal(deliveredAt: int) returns (ok: bool)
      requires Valid() && stage == PersistIntent
      modifies this`stage, this`deadline, this`trace
      ensures Valid() && old(trace) <= trace
      ensures ok ==> stage == SignalProcess && deadline == Some(deliveredAt + grace)
      ensures !ok ==> stage == PersistIntent || stage == SignalProcess
      ensures trace == old(trace) || trace == old(trace) + [Checkpointed(deliveredAt)]
      ensures reliable ==> ok
    {
      var due := deliveredAt + grace;
      if deadline.Some? {
        assert false;
      }
      var stored: bool, answered: bool := *, *;
      stored, answered := stored || reliable, answered || reliable;
      if stored {
        SafeGrows(trace, Checkpointed(deliveredAt), grace);
        DeadlineGrows(trace, Checkpointed(deliveredAt), grace);
        trace := trace + [Checkpointed(deliveredAt)];
        stage, deadline := SignalProcess, Some(due);
      }
      ok := stored && answered;
    }

    /** After a signal that was refused, only a terminal observation lets the operation go on. */
    method ObserveAfterSignalError() returns (over: bool)
      requires Valid()
      modifies this`trace
      ensures Valid() && old(trace) <= trace
      ensures over ==> Observed(true) in trace
      ensures trace == old(trace) || trace == old(trace) + [Observed(over)]
      ensures Sound() ==> over
    {
      var observed := Observe();
      over := observed == Some(true);
    }

    /** Polls until the Attempt is over or the fixed deadline has passed. */
    method WaitForTerminalUntil(until: int, polls: nat) returns (observed: Option<bool>)
      requires Valid() && deadline == Some(until)
      modifies this`trace
      ensures Valid() && old(trace) <= trace
      ensures observed == Some(false) ==> Due(trace, grace, |trace|)
      ensures observed == Some(true) ==> Observed(true) in trace
      ensures Answered(trace, grace, |old(trace)|) && (|old(trace)| < |trace| ==> trace[|old(trace)|].Observed?)
      ensures observed != Some(false) ==> NoneMissed(trace, grace, |old(trace)|)
      ensures reliable && polls > 0 && observed.None? ==>
                |trace| >= 2 && trace[|trace| - 2] == Observed(false) && trace[|trace| - 1].ReadClock? && trace[|trace| - 1].now < until
      ensures Sound() && polls > 0 ==> observed == Some(true)
    {
      hide Safe, Answered, NoneMissed, Due, Deadline;
      ghost var n := |trace|;
      NothingYet(trace, grace);
      var left := polls;
      while left > 0
        invariant Valid() && old(trace) <= trace
        invariant NoneMissed(trace, grace, n) && (n < |trace| ==> trace[n].Observed?)
        invariant left <= polls && (ends ==> left == polls)
        invariant left < polls ==>
                    |trace| >= 2 && trace[|trace| - 2] == Observed(false) && trace[|trace| - 1].ReadClock? && trace[|trace| - 1].now < until
      {
        left := left - 1;
        ghost var before := trace;
        MissedNeedsAnswered(before, grace, n);
        observed := Observe();
        if observed.None? {
          return;
        }
        AnsweredGrows(before, Observed(observed.value), grace, n);
        var now := Now();
        assert trace == before + [Observed(observed.value)] + [ReadClock(now)];
        AnsweredGrows(before + [Observed(observed.value)], ReadClock(now), grace, n);
        if observed.value || now >= until {
          DueNow(before, now, grace);
          MissedNeedsAnswered(before + [Observed(observed.value)], grace, n);
          return;
        }
      }
      MissedNeedsAnswered(trace, grace, n);
      observed := None;
    }

    /** Records the terminal fact, then the result; either write may be the last thing that happens. */
    method RecordStopped() returns (ok: bool)
      requires Valid() && Observed(true) in trace
      modifies this`stage, this`terminal
      ensures Valid() && (terminal ==> old(terminal) || stage == ObserveProcess)
      ensures old(terminal) ==> terminal
      ensures ok ==> terminal
      ensures reliable ==> ok
    {
      var stored: bool, recorded: bool := *, *;
      stored, recorded := stored || reliable, recorded || reliable;
      if !stored {
        return false;
      }
      stage := ObserveProcess;
      terminal := terminal || recorded;
      ok := recorded;
    }

    /**
     One client call, or one call of a watcher, under the Container's target
     lock. From any other stage than the resumable ones it does nothing at all.
     On a reliable system it sends the initial signal of an intent, answers a
     deadline that passes in its wait with the stronger signal at once, and is
     done, has escalated or still waits; and it ends the kill if the Attempt ends.
     */
    method KillContainer(polls: nat) returns (done: bool)
      requires Valid()
      modifies this`stage, this`deadline, this`terminal, this`trace
      ensures Valid() && old(trace) <= trace
      ensures old(Over()) ==> terminal == old(terminal) && trace == old(trace) && stage == old(stage)
      ensures old(deadline).Some? ==> deadline == old(deadline)
      ensures !old(Over()) && !Resumable(old(stage)) ==> !done && stage == old(stage) && trace == old(trace) && !terminal
      ensures done ==> Over()
      ensures reliable && old(stage) == PersistIntent && !old(Over()) ==> SentInitial in trace[|old(trace)|..] && deadline.Some?
      ensures reliable ==> NoneMissed(trace, grace, |old(trace)|)
      ensures reliable && polls > 0 && Resumable(old(stage)) && !done ==> Pursued(|old(trace)|)
      ensures Sound() && polls > 0 && !old(Over()) ==> (terminal <==> Resumable(old(stage)))
    {
      hide Safe, Due, NoneMissed, Answered, Deadline;
      ghost var n := |trace|;
      NothingYet(trace, grace);
      if Over() {
        return true;
      }
      var over := false;
      done := false;
      if stage == PersistIntent {
        var deliveredAt := SendInitial();
        var stops: bool := *;
        if stops && !reliable {
          return false;
        }
        if deliveredAt.None? {
          over := ObserveAfterSignalError();
          if !over {
            return false;
          }
        } else {
          assert trace[n] == SentInitial;
          var ok := CheckpointKillSignal(deliveredAt.value);
          if !ok {
            return false;
          }
        }
      } else if stage == ObserveProcess {
        var observed := Observe();
        if observed.None? {
          return false;
        }
        over := observed.value;
      } else if stage != SignalProcess {
        return false;
      }
      done := Pursue(over, polls, n);
    }

    /** The rest of a call: waits for the deadline unless the Attempt was seen over, escalates when it passed, and records the end. */
    method Pursue(seen: bool, polls: nat, ghost n: nat) returns (done: bool)
      requires Valid() && n <= |trace| && forall k :: n <= k < |trace| ==> !trace[k].ReadClock?
      requires seen ==> Observed(true) in trace
      requires !seen && deadline.None? ==> trace != [] && trace[|trace| - 1] == Observed(false)
      modifies this`stage, this`terminal, this`trace
      ensures Valid() && old(trace) <= trace
      ensures old(terminal) || done ==> terminal
      ensures reliable ==> NoneMissed(trace, grace, n)
      ensures reliable && polls > 0 && !done ==> Pursued(n)
      ensures Sound() && polls > 0 && (seen || deadline.Some?) ==> done
    {
      hide Safe, Due, NoneMissed, Answered, Deadline;
      ShortIsAnswered(trace, grace, n);
      var over := seen;
      if !over {
        if deadline.None? {
          return false;
        }
        ghost var before := trace;
        var waited := WaitForTerminalUntil(deadline.value, polls);
        AnsweredLater(before, trace, grace, n);
        if waited.None? {
          return false;
        }
        over := waited.value;
        if !over {
          over := Escalate(polls, n);
          if !over {
            return false;
          }
        }
      }
      done := RecordStopped();
    }

    /** Sends the stronger signal, and goes on only once the Attempt is seen over. A reliable system always sends it. */
    method Escalate(polls: nat, ghost n: nat) returns (over: bool)
      requires Valid() && Due(trace, grace, |trace|) && n <= |trace| && Answered(trace, grace, n)
      modifies this`trace
      ensures Valid() && old(trace) <= trace
      ensures over ==> Observed(true) in trace
      ensures reliable ==> NoneMissed(trace, grace, n)
      ensures reliable ==> |old(trace)| < |trace| && trace[|old(trace)|] == SentEscalation && SentEscalation in trace[n..]
      ensures Sound() && polls > 0 ==> over
    {
      hide Safe, Due, NoneMissed, Answered;
      var effect: bool, confirmed: bool := *, *;
      effect, confirmed := effect || reliable, confirmed || reliable;
      if effect {
        AnsweredGrows(trace, SentEscalation, grace, n);
        Note(SentEscalation);
        assert trace[|old(trace)|] == SentEscalation;
      }
      if !(effect && confirmed) {
        over := ObserveAfterSignalError();
        return;
      }
      over := false;
      for i := 0 to polls
        invariant Valid() && old(trace) + [SentEscalation] <= trace
        invariant NoneMissed(trace, grace, n)
        invariant over ==> Observed(true) in trace
        invariant Sound() && i > 0 ==> over
      {
        if !over {
          ghost var before := trace;
          over := ObserveAfterSignalError();
          if trace != before {
            MissedNeedsAnswered(before, grace, n);
            AnsweredGrows(before, Observed(over), grace, n);
          }
        }
      }
      assert trace[|old(trace)|] == SentEscalation;
    }

    /** Recovery and the deadline watcher send the initial signal of an intent that has no delivery yet. */
    method CheckpointInitialKill() returns (done: bool)
      requires Valid()
      modifies this`stage, this`deadline, this`terminal, this`trace
      ensures Valid() && old(trace) <= trace
      ensures old(stage) != PersistIntent || old(Over()) ==> trace == old(trace) && stage == old(stage) && terminal == old(terminal)
      ensures old(deadline).Some? ==> deadline == old(deadline)
      ensures reliable && old(stage) == PersistIntent && !old(Over()) ==>
                done && SentInitial in trace[|old(trace)|..] && stage == SignalProcess && deadline.Some?
    {
      hide Safe, Due;
      if Over() || stage != PersistIntent {
        return true;
      }
      var deliveredAt := SendInitial();
      var stops: bool := *;
      if stops && !reliable {
        return false;
      }
      if deliveredAt.Some? {
        assert trace[|old(trace)|] == SentInitial;
        done := CheckpointKillSignal(deliveredAt.value);
        return;
      }
      var over := ObserveAfterSignalError();
      if !over {
        return false;
      }
      done := RecordStopped();
    }

    /** The watcher decides on a listing that may be out of date; what it calls looks again. */
    method SynchronizeKillDeadlines(listedStage: Stage, listedDeadline: Option<int>, now: int, polls: nat) returns (ok: bool)
      requires Valid()
      modifies this`stage, this`deadline, this`terminal, this`trace
      ensures Valid() && old(trace) <= trace
      ensures old(deadline).Some? ==> deadline == old(deadline)
      ensures old(Over()) || !Resumable(old(stage)) ==> stage == old(stage) && trace == old(trace) && terminal == old(terminal)
      ensures reliable && !old(Over()) && listedStage == old(stage) == PersistIntent ==> SentInitial in trace[|old(trace)|..] && deadline.Some?
      ensures reliable && !old(Over()) && polls > 0 && listedStage == old(stage) == SignalProcess && listedDeadline == old(deadline) ==>
                now >= deadline.value && !ok ==> Pursued(|old(trace)|)
      ensures reliable && listedStage != PersistIntent ==> NoneMissed(trace, grace, |old(trace)|)
    {
      hide Safe, Due, NoneMissed, Answered;
      NothingYet(trace, grace);
      if listedStage == PersistIntent {
        ok := CheckpointInitialKill();
        return;
      }
      if listedDeadline.None? {
        return false;
      }
      if now < listedDeadline.value {
        return true;
      }
      ok := KillContainer(polls);
    }

    /** Recovery found a resource it cannot observe: the operation stays active, but an intent moves on to a stage no kill resumes from. */
    method CheckpointRecoveryIssue() returns (ok: bool)
      requires Valid()
      modifies this`stage
      ensures Valid()
      ensures stage == old(stage) || (old(stage) == PersistIntent && stage == CheckPreconditions && !Over())
      ensures reliable && !Over() && old(stage) == PersistIntent ==> stage == CheckPreconditions
    {
      var stored: bool := *;
      ok := stored || reliable;
      if ok && !Over() && stage == PersistIntent {
        stage := CheckPreconditions;
      }
    }

    /** Recovery found a decided problem with the Container's resources: the active operation is failed, whatever its stage. */
    method FailActiveOperation() returns (ok: bool)
      requires Valid()
      modifies this`failed
      ensures Valid() && (old(Over()) ==> failed == old(failed))
      ensures reliable ==> Over()
    {
      var stored: bool := *;
      ok := stored || reliable;
      failed := failed || (ok && !terminal);
    }

    /** What recovery does with an active kill whose resources show no problem. */
    method ReconcileActiveKill(now: int, polls: nat) returns (ok: bool)
      requires Valid()
      modifies this`stage, this`deadline, this`terminal, this`trace
      ensures Valid() && old(trace) <= trace
      ensures old(deadline).Some? ==> deadline == old(deadline)
      ensures old(Over()) || !Resumable(old(stage)) ==>
                stage == old(stage) && terminal == old(terminal) && (old(stage) == CheckPreconditions ==> trace == old(trace))
      ensures old(stage) == CheckPreconditions ==> !ok
      ensures reliable && !old(Over()) && old(stage) == PersistIntent ==> ok && SentInitial in trace[|old(trace)|..] && deadline.Some?
      ensures reliable && polls > 0 && old(deadline).Some? && now >= old(deadline).value && Resumable(old(stage)) && !ok ==> Pursued(|old(trace)|)
    {
      hide Safe, Due, NoneMissed, Answered;
      if stage == PersistIntent {
        ok := CheckpointInitialKill();
        return;
      }
      if deadline.None? {
        return false;
      }
      if now >= deadline.value {
        ok := KillContainer(polls);
        return;
      }
      var observed := Observe();
      if observed.None? {
        ok := CheckpointRecoveryIssue();
      } else if observed.value {
        ok := KillContainer(polls);
      } else {
        ok := true;
      }
    }

    /** What recovery does with an active kill when the daemon starts: resources it cannot observe, a decided problem, or none. */
    method Reconcile(issues: bool, unknown: bool, now: int, polls: nat) returns (ok: bool)
      requires Valid()
      modifies this`stage, this`deadline, this`terminal, this`failed, this`trace
      ensures Valid() && old(trace) <= trace
      ensures old(deadline).Some? ==> deadline == old(deadline)
      ensures old(Over()) ==> terminal == old(terminal) && failed == old(failed) && trace == old(trace)
      ensures old(stage) == CheckPreconditions ==> stage == CheckPreconditions && trace == old(trace) && terminal == old(terminal)
      ensures failed && !old(failed) ==> issues && !unknown
      ensures old(stage) == CheckPreconditions && reliable && !old(Over()) ==> (failed <==> issues && !unknown)
      ensures old(stage) == CheckPreconditions && !old(Over()) && !issues ==> !ok
      ensures old(stage) == PersistIntent && reliable && !old(Over()) && issues && unknown ==> stage == CheckPreconditions && !Over()
    {
      hide Safe, Due;
      if Over() {
        return true;
      }
      if issues && unknown {
        ok := CheckpointRecoveryIssue();
      } else if issues {
        ok := FailActiveOperation();
      } else {
        ok := ReconcileActiveKill(now, polls);
      }
    }

    /**
     Any mixture of client calls, watcher rounds on stale listings and restarts
     keeps the trace safe and the deadline fixed. Once at check_preconditions the
     kill never signals and never ends as a kill: all that can end it is a
     restart that fails it.
     */
    method Run(calls: seq<Call>)
      requires Valid()
      modifies this`stage, this`deadline, this`terminal, this`failed, this`trace
      ensures Valid() && old(trace) <= trace
      ensures old(deadline).Some? ==> deadline == old(deadline)
      ensures old(Over()) ==> terminal == old(terminal) && failed == old(failed) && trace == old(trace)
      ensures old(stage) == CheckPreconditions ==> stage == CheckPreconditions && trace == old(trace) && terminal == old(terminal)
      ensures failed && !old(failed) ==> exists i :: 0 <= i < |calls| && calls[i].Restart? && calls[i].issues && !calls[i].unknown
    {
      hide Safe, Due;
      for i := 0 to |calls|
        invariant Valid() && old(trace) <= trace
        invariant old(deadline).Some? ==> deadline == old(deadline)
        invariant old(Over()) ==> terminal == old(terminal) && failed == old(failed) && trace == old(trace)
        invariant old(stage) == CheckPreconditions ==> stage == CheckPreconditions && trace == old(trace) && terminal == old(terminal)
        invariant failed && !old(failed) ==> exists k :: 0 <= k < i && calls[k].Restart? && calls[k].issues && !calls[k].unknown
      {
        match calls[i]
        case Client(polls) => var _ := KillContainer(polls);
        case Watcher(listedStage, listedDeadline, now, polls) => var _ := SynchronizeKillDeadlines(listedStage, listedDeadline, now, polls);
        case Restart(issues, unknown, now, polls) => var _ := Reconcile(issues, unknown, now, polls);
      }
    }
  }

  datatype Call =
    | Client(polls: nat)
    | Watcher(listedStage: Stage, listedDeadline: Option<int>, now: int, polls: nat)
    | Restart(issues: bool, unknown: bool, now: int, polls: nat)

  /** A kill that gets there: one restart that could not observe a resource, and a later call on a sound system finds nothing it may do. */
  method StrandedKill(grace: nat) returns (kill: Kill, done: bool)
    ensures fresh(kill) && kill.Valid() && kill.Sound()
    ensures kill.stage == CheckPreconditions && !kill.Over() && kill.trace == [] && !done
  {
    kill := new Kill(grace, true, true);
    var _ := kill.CheckpointRecoveryIssue();
    done := kill.KillContainer(1);
  }
}
