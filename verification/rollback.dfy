/**
 Undoing a create that failed. Inverses run last first, each success is durable
 before the next one starts, and the create counts as failed only when every
 inverse has succeeded and every resource was seen absent. The process may stop
 anywhere and start over from what is durable.
 */
module RollbackCreate {
  import opened Results
  import opened Ownership
  import opened Acquisition

  const MAX_ATTEMPTS: nat := 0xFFFF_FFFF

  /** What happens during rollback: an inverse runs, a durable mark, a resource seen absent. */
  datatype Event = Ran(index: nat) | Marked(index: nat) | Absent(receipt: Receipt)

  /** No inverse runs once its success is durable. */
  predicate MarkedNeverRun(t: seq<Event>) {
    forall p, q :: 0 <= p < q < |t| && t[p].Marked? && t[q].Ran? ==> t[p].index != t[q].index
  }

  /** A record is marked exactly when its mark was made durable. */
  predicate MarksMatch(t: seq<Event>, rs: seq<Record>) {
    forall i: nat :: i < |rs| ==> (rs[i].succeeded <==> Marked(i) in t)
  }

  /** Inverses run in strictly decreasing journal order. */
  predicate Decreasing(t: seq<Event>) {
    forall p, q :: 0 <= p < q < |t| && t[p].Ran? && t[q].Ran? ==> t[p].index > t[q].index
  }

  /** The resource was seen absent after the last inverse that ran. */
  ghost predicate SeenAbsentSince(t: seq<Event>, r: Receipt) {
    exists k :: 0 <= k < |t| && t[k] == Absent(r) && forall q :: k < q < |t| ==> !t[q].Ran?
  }

  predicate AllAbove(t: seq<Event>, n: int) {
    forall p :: 0 <= p < |t| && t[p].Ran? ==> t[p].index >= n
  }

  /** The same inverses, further along: what succeeded stays succeeded. */
  predicate Progress(before: seq<Record>, after: seq<Record>) {
    && |before| == |after|
    && forall i :: 0 <= i < |before| ==>
         && after[i].descriptor == before[i].descriptor
         && (before[i].started ==> after[i].started)
         && (before[i].succeeded ==> after[i].succeeded)
         && before[i].attempts <= after[i].attempts
  }

  /** Every failure can still be counted, if there are any. */
  predicate Countable(works: bool, rs: seq<Record>) {
    works || forall i :: 0 <= i < |rs| && !rs[i].succeeded ==> rs[i].attempts < MAX_ATTEMPTS
  }

  /** The same inverses with every start made durable. */
  predicate Sealed(before: seq<Record>, after: seq<Record>) {
    |after| == |before| && forall i :: 0 <= i < |before| ==> after[i] == before[i].(started := true)
  }

  lemma SealedProgress(works: bool, before: seq<Record>, after: seq<Record>)
    requires Sealed(before, after)
    ensures Progress(before, after) && (Countable(works, before) ==> Countable(works, after))
    ensures forall i :: 0 <= i < |after| ==> after[i].started
    ensures forall t :: Tried(after, t) ==> Tried(before, t)
  {
    forall t | Tried(after, t)
      ensures Tried(before, t)
    {
      TriedMore(after, before, t, t);
    }
  }

  lemma SameLength(before: seq<Record>, after: seq<Record>)
    requires Progress(before, after)
    ensures |before| == |after|
  {
  }

  lemma NoProgress(rs: seq<Record>)
    ensures Progress(rs, rs)
  {
  }

  /** Every inverse that was left has been run. */
  predicate Tried(before: seq<Record>, t: seq<Event>) {
    forall i :: 0 <= i < |before| && !before[i].succeeded ==> Ran(i) in t
  }

  lemma TriedMore(before: seq<Record>, same: seq<Record>, t: seq<Event>, more: seq<Event>)
    requires Tried(before, t) && t <= more && |same| == |before|
    requires forall i :: 0 <= i < |before| ==> same[i].succeeded == before[i].succeeded
    ensures Tried(same, more)
  {
  }

  /** One more failed attempt, unless the counter is full. */
  function RecordFailure(r: Record, message: string): Option<Record> {
    if r.attempts == MAX_ATTEMPTS then None
    else Some(r.(started := true, attempts := r.attempts + 1, lastError := message))
  }

  lemma RanKeepsMarks(t: seq<Event>, rs: seq<Record>, i: nat)
    requires MarksMatch(t, rs) && MarkedNeverRun(t) && i < |rs| && !rs[i].succeeded
    ensures MarksMatch(t + [Ran(i)], rs) && MarkedNeverRun(t + [Ran(i)])
  {
  }

  lemma MarkMatches(t: seq<Event>, rs: seq<Record>, i: nat)
    requires MarksMatch(t, rs) && MarkedNeverRun(t) && i < |rs|
    ensures MarksMatch(t + [Marked(i)], rs[i := rs[i].(succeeded := true)]) && MarkedNeverRun(t + [Marked(i)])
  {
  }

  lemma AbsentKeepsMarks(t: seq<Event>, rs: seq<Record>, r: Receipt)
    requires MarksMatch(t, rs) && MarkedNeverRun(t)
    ensures MarksMatch(t + [Absent(r)], rs) && MarkedNeverRun(t + [Absent(r)])
  {
  }

  lemma AbsentIsLast(t: seq<Event>, r: Receipt)
    ensures SeenAbsentSince(t + [Absent(r)], r)
    ensures forall other :: SeenAbsentSince(t, other) ==> SeenAbsentSince(t + [Absent(r)], other)
  {
    var u := t + [Absent(r)];
    assert u[|t|] == Absent(r);
    forall other | SeenAbsentSince(t, other)
      ensures SeenAbsentSince(u, other)
    {
      var k :| 0 <= k < |t| && t[k] == Absent(other) && forall q :: k < q < |t| ==> !t[q].Ran?;
      assert u[k] == Absent(other);
    }
  }

  lemma SameMarks(t: seq<Event>, before: seq<Record>, after: seq<Record>)
    requires MarksMatch(t, before) && |before| == |after|
    requires forall i :: 0 <= i < |before| ==> after[i].succeeded == before[i].succeeded
    ensures MarksMatch(t, after)
  {
  }

  lemma ProgressChain(a: seq<Record>, b: seq<Record>, c: seq<Record>)
    requires Progress(a, b) && Progress(b, c)
    ensures Progress(a, c)
  {
  }

  class Rollback {
    const rules: Rules
    const receipts: seq<Receipt>

    /** Durable: the primary cause, the inverses and whether the create is failed. */
    var cause: Option<string>
    var records: seq<Record>
    var failed: bool

    /** The store answers, inverses resolve and the process goes on; and inverses then succeed and resources are absent. No call changes either. */
    var reliable: bool
    var works: bool

    ghost var trace: seq<Event>

    ghost predicate Valid()
      reads this
    {
      && MarksMatch(trace, records) && MarkedNeverRun(trace)
      && (forall i :: 0 <= i < |records| && records[i].succeeded ==> records[i].started)
      && (failed ==>
            && (forall i :: 0 <= i < |records| ==> records[i].succeeded)
            && (forall r :: r in receipts ==> SeenAbsentSince(trace, r)))
    }

    /** All receipts share the one valid owner whose resources the resolver may touch. */
    predicate Owned() {
      receipts != [] && rules.ownerOk(receipts[0].owner) && forall i :: 0 <= i < |receipts| ==> receipts[i].owner == receipts[0].owner
    }

    constructor (rules: Rules, j: Journal, reliable: bool, works: bool)
      requires forall i :: 0 <= i < |j.rollback| ==> !j.rollback[i].succeeded
      ensures Valid() && this.rules == rules && receipts == j.receipts && records == j.rollback && !failed && trace == [] && cause.None?
      ensures this.reliable == reliable && this.works == works
    {
      this.rules, this.reliable, this.works := rules, reliable, works;
      receipts, records, cause, failed, trace := j.receipts, j.rollback, None, false, [];
    }

    /** Stores inverse progress; the answer may be lost. At most one record newly succeeds, and that is its mark. */
    method Checkpoint(next: seq<Record>, reason: string, mark: Option<nat>) returns (ok: bool)
      requires Valid() && !failed && Progress(records, next)
      requires mark.None? ==> forall i :: 0 <= i < |next| ==> next[i].succeeded == records[i].succeeded
      requires mark.Some? ==> mark.value < |records| && records[mark.value].started && next == records[mark.value := records[mark.value].(succeeded := true)]
      modifies this`records, this`trace, this`cause
      ensures Valid()
      ensures ok ==> records == next && cause == Some(reason)
      ensures records == next || (!ok && records == old(records))
      ensures cause == Some(reason) || (!ok && cause == old(cause))
      ensures trace == old(trace) || (mark.Some? && trace == old(trace) + [Marked(mark.value)])
      ensures reliable ==> ok
    {
      var stored: bool, answered: bool := *, *;
      stored, answered := stored || reliable, answered || reliable;
      if stored {
        if mark.Some? {
          MarkMatches(trace, records, mark.value);
          trace := trace + [Marked(mark.value)];
        } else {
          SameMarks(trace, records, next);
        }
        records, cause := next, Some(reason);
      }
      ok := stored && answered;
    }

    method OneOwner() returns (ok: bool)
      ensures ok <==> Owned()
    {
      if receipts == [] || !rules.ownerOk(receipts[0].owner) {
        return false;
      }
      for i := 1 to |receipts|
        invariant forall k :: 0 <= k < i ==> receipts[k].owner == receipts[0].owner
      {
        if receipts[i].owner != receipts[0].owner {
          return false;
        }
      }
      return true;
    }

    /** Runs one inverse that is not marked and makes the result durable. */
    method Undo(index: nat, reason: string) returns (ok: bool, undone: bool)
      requires Valid() && !failed && index < |records| && !records[index].succeeded && records[index].started
      modifies this`records, this`trace, this`cause
      ensures Valid() && Progress(old(records), records)
      ensures ok ==> cause == Some(reason)
      ensures cause == Some(reason) || cause == old(cause)
      ensures undone ==> records[index].succeeded
      ensures trace == old(trace) || trace == old(trace) + [Ran(index)] || trace == old(trace) + [Ran(index), Marked(index)]
      ensures forall i :: 0 <= i < |records| && i != index ==> records[i] == old(records)[i]
      ensures reliable && (works || old(records)[index].attempts < MAX_ATTEMPTS) ==> ok && Ran(index) in trace[|old(trace)|..]
      ensures reliable && works ==> undone
    {
      var resolves: bool := *;
      var succeeds := false;
      if resolves || reliable {
        RanKeepsMarks(trace, records, index);
        trace := trace + [Ran(index)];
        succeeds := *;
        succeeds := succeeds || (reliable && works);
        assert trace[|old(trace)|] == Ran(index);
      }
      undone := false;
      ghost var ran := trace;
      if succeeds {
        var stops: bool := *;
        if stops && !reliable {
          return false, false;
        }
        ok := Checkpoint(records[index := records[index].(succeeded := true)], reason, Some(index));
        undone := ok;
        assert old(trace) + [Ran(index)] + [Marked(index)] == old(trace) + [Ran(index), Marked(index)];
      } else {
        var message: string := *;
        var updated := RecordFailure(records[index], message);
        if updated.None? {
          return false, false;
        }
        ok := Checkpoint(records[index := updated.value], reason, None);
      }
    }

    /**
     One pass over the inverses, from whatever is durable. On a reliable system
     it tries every inverse that is left, also after one of them failed; and when
     they work it is done.
     */
    method Pass(failure: string) returns (done: bool)
      requires Valid()
      modifies this`records, this`trace, this`cause, this`failed
      ensures Valid() && Progress(old(records), records)
      ensures old(trace) <= trace && Decreasing(trace[|old(trace)|..])
      ensures old(cause).Some? ==> cause == old(cause)
      ensures old(failed) ==> failed && trace == old(trace) && records == old(records)
      ensures done ==> failed
      ensures reliable && Owned() && Countable(works, old(records)) && !old(failed) ==> Tried(old(records), trace[|old(trace)|..])
      ensures reliable && works && (Owned() || old(records) == []) ==> done
    {
      if failed {
        return true;
      }
      hide MarksMatch, MarkedNeverRun, Tried, SeenAbsentSince, Owned, Decreasing, Progress, Countable, Sealed;
      var reason := if cause.Some? then cause.value else failure;
      ghost var current := records;
      NothingRan();
      NoProgress(current);
      var ok := Seal(reason);
      assert trace[|trace|..] == [];
      if !ok {
        if records != current { SealedProgress(works, current, records); }
        return false;
      }
      ghost var sealed := records;
      SealedProgress(works, current, sealed);
      done := Continue(reason);
      ProgressChain(current, sealed, records);
    }

    /** A pass once its start is durable. */
    method Continue(reason: string) returns (done: bool)
      requires Valid() && !failed && cause == Some(reason) && forall i :: 0 <= i < |records| ==> records[i].started
      modifies this`records, this`trace, this`cause, this`failed
      ensures Valid() && Progress(old(records), records) && cause == Some(reason)
      ensures old(trace) <= trace && Decreasing(trace[|old(trace)|..])
      ensures done ==> failed
      ensures reliable && Owned() && Countable(works, old(records)) ==> Tried(old(records), trace[|old(trace)|..])
      ensures reliable && works && (Owned() || old(records) == []) ==> done
    {
      hide MarksMatch, MarkedNeverRun, Tried, SeenAbsentSince, Owned, Decreasing, Progress, Countable;
      ghost var start, sealed := trace, records;
      NothingRan();
      NoProgress(sealed);
      assert trace[|start|..] == [];
      if records != [] {
        var owned := OneOwner();
        var resolver: bool := *;
        if !owned || !(resolver || reliable) {
          return false;
        }
      }
      var ok, complete := UndoAll(reason);
      if !ok || !complete {
        return false;
      }
      ghost var runs := trace;
      done := Finish();
      assert runs[|start|..] <= trace[|start|..];
      NoMoreRuns(runs[|start|..], trace[|start|..]);
      if reliable && Countable(works, sealed) {
        TriedMore(sealed, sealed, runs[|start|..], trace[|start|..]);
      }
    }

    /** Makes the cause and the start of every inverse durable. */
    method Seal(reason: string) returns (ok: bool)
      requires Valid() && !failed
      modifies this`records, this`trace, this`cause
      ensures Valid() && trace == old(trace)
      ensures records == old(records) || Sealed(old(records), records)
      ensures ok ==> cause == Some(reason) && Sealed(old(records), records)
      ensures cause == Some(reason) || (!ok && cause == old(cause))
      ensures reliable ==> ok
    {
      hide MarksMatch, MarkedNeverRun, SeenAbsentSince;
      var current := records;
      ok := Checkpoint(seq(|current|, i requires 0 <= i < |current| => current[i].(started := true)), reason, None);
    }

    /** The loop of a pass, from the last inverse to the first. */
    method UndoAll(reason: string) returns (ok: bool, complete: bool)
      requires Valid() && !failed && cause == Some(reason) && forall i :: 0 <= i < |records| ==> records[i].started
      modifies this`records, this`trace, this`cause
      ensures Valid() && Progress(old(records), records) && cause == Some(reason)
      ensures old(trace) <= trace && Decreasing(trace[|old(trace)|..])
      ensures ok && complete ==> forall i :: 0 <= i < |records| ==> records[i].succeeded
      ensures reliable && Countable(works, old(records)) ==> ok && Tried(old(records), trace[|old(trace)|..])
      ensures reliable && works ==> ok && complete
    {
      hide MarksMatch, MarkedNeverRun;
      ok, complete := true, true;
      ghost var runs: seq<Event> := [];
      assert Progress(records, records);
      var index := |records|;
      while index > 0
        invariant 0 <= index <= |records| && Valid() && !failed && cause == Some(reason)
        invariant Progress(old(records), records)
        invariant trace == old(trace) + runs && Decreasing(runs) && AllAbove(runs, index)
        invariant complete ==> forall i :: index <= i < |records| ==> records[i].succeeded
        invariant forall i :: 0 <= i < |records| ==> records[i].started && (i < index ==> records[i] == old(records)[i])
        invariant reliable && Countable(works, old(records)) ==>
                    ok && forall i :: index <= i < |records| && !old(records)[i].succeeded ==> Ran(i) in runs
        invariant reliable && works ==> complete
      {
        index := index - 1;
        if !records[index].succeeded {
          ghost var before, start := records, runs;
          var undone;
          ok, undone := Undo(index, reason);
          ProgressChain(old(records), before, records);
          runs := trace[|old(trace)|..];
          RunsGrow(start, runs, index);
          complete := complete && undone;
          if !ok {
            return;
          }
        }
      }
    }

    /** Observes every receipt and, only when all are absent, makes the create's failure durable. */
    method Finish() returns (done: bool)
      requires Valid() && !failed && forall i :: 0 <= i < |records| ==> records[i].succeeded
      modifies this`trace, this`failed
      ensures Valid() && old(trace) <= trace
      ensures forall p :: |old(trace)| <= p < |trace| ==> trace[p].Absent?
      ensures done ==> failed
      ensures reliable && works ==> done
    {
      for i := 0 to |receipts|
        invariant Valid() && !failed && old(trace) <= trace
        invariant forall p :: |old(trace)| <= p < |trace| ==> trace[p].Absent?
        invariant forall k :: 0 <= k < i ==> SeenAbsentSince(trace, receipts[k])
      {
        var absent: bool := *;
        if !absent && !(reliable && works) {
          return false;
        }
        AbsentKeepsMarks(trace, records, receipts[i]);
        AbsentIsLast(trace, receipts[i]);
        trace := trace + [Absent(receipts[i])];
      }
      var stored: bool, answered: bool := *, *;
      stored, answered := stored || reliable, answered || reliable;
      failed := stored;
      done := stored && answered;
    }

    /** Any number of passes, ended by errors or crashes, with any later diagnostics; bounds says where each pass began. */
    method Passes(failures: seq<string>) returns (done: bool, ghost bounds: seq<nat>)
      requires Valid()
      modifies this`records, this`trace, this`cause, this`failed
      ensures Valid() && Progress(old(records), records) && old(trace) <= trace
      ensures old(cause).Some? ==> cause == old(cause)
      ensures old(failed) ==> failed && trace == old(trace) && records == old(records)
      ensures done ==> failed
      ensures |bounds| == |failures| + 1 && bounds[0] == |old(trace)| && bounds[|failures|] == |trace|
      ensures EachDecreasing(trace, bounds)
      ensures reliable && works && (Owned() || old(records) == []) && failures != [] ==> done
    {
      hide MarksMatch, MarkedNeverRun, SeenAbsentSince, EachDecreasing, Tried, Owned, Countable, Progress;
      NoProgress(records);
      done := false;
      bounds := [|trace|];
      assert EachDecreasing(trace, bounds) by { NoPassYet(trace); }
      for i := 0 to |failures|
        invariant reliable && works && (Owned() || old(records) == []) && i > 0 ==> done
        invariant |records| == |old(records)|
        invariant Valid() && Progress(old(records), records) && old(trace) <= trace
        invariant old(cause).Some? ==> cause == old(cause)
        invariant old(failed) ==> failed && trace == old(trace) && records == old(records)
        invariant done ==> failed
        invariant |bounds| == i + 1 && bounds[0] == |old(trace)| && bounds[i] == |trace|
        invariant EachDecreasing(trace, bounds)
      {
        ghost var before, was := records, trace;
        done := Pass(failures[i]);
        SameLength(before, records);
        ProgressChain(old(records), before, records);
        OneMorePass(was, trace, bounds);
        bounds := bounds + [|trace|];
      }
    }
  }

  /** Between one bound and the next, inverses ran in strictly decreasing order. */
  ghost predicate EachDecreasing(t: seq<Event>, bounds: seq<nat>) {
    && (forall i, j :: 0 <= i < j < |bounds| ==> bounds[i] <= bounds[j])
    && (forall i :: 0 <= i < |bounds| ==> bounds[i] <= |t|)
    && forall i :: 0 < i < |bounds| ==> Decreasing(t[bounds[i - 1]..bounds[i]])
  }

  lemma NoPassYet(t: seq<Event>)
    ensures EachDecreasing(t, [|t|])
  {
  }

  lemma OneMorePass(before: seq<Event>, after: seq<Event>, bounds: seq<nat>)
    requires EachDecreasing(before, bounds) && |bounds| > 0 && bounds[|bounds| - 1] == |before|
    requires before <= after && Decreasing(after[|before|..])
    ensures EachDecreasing(after, bounds + [|after|])
  {
    var more := bounds + [|after|];
    forall i | 0 < i < |more|
      ensures Decreasing(after[more[i - 1]..more[i]])
    {
      if i < |bounds| {
        assert after[bounds[i - 1]..bounds[i]] == before[bounds[i - 1]..bounds[i]];
      } else {
        assert after[|before|..|after|] == after[|before|..];
      }
    }
  }

  lemma NothingRan()
    ensures Decreasing([])
  {
  }

  /** What comes after the runs are looks at resources. */
  lemma NoMoreRuns(runs: seq<Event>, all: seq<Event>)
    requires Decreasing(runs) && runs <= all && forall p :: |runs| <= p < |all| ==> all[p].Absent?
    ensures Decreasing(all)
  {
  }

  lemma RunsGrow(before: seq<Event>, after: seq<Event>, index: nat)
    requires Decreasing(before) && AllAbove(before, index + 1)
    requires after == before || after == before + [Ran(index)] || after == before + [Ran(index), Marked(index)]
    ensures Decreasing(after) && AllAbove(after, index)
  {
  }
}
