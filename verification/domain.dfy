/** The vocabulary of the lifecycle model: phases, outcomes, conditions and the rules each must meet. */
module Domain {
  import opened Results

  datatype Code =
    | InvalidArgument
    | FailedPrecondition
    | InvalidTransition
    | UnsafeIdentity
    | OutcomeUnknownCode
    | NotFound
    | AlreadyExists
    | Conflict

  datatype SandboxPhase = SandboxAbsent | SandboxCreating | SandboxReady | SandboxStopping | SandboxStopped

  datatype AttemptPhase = AttemptAbsent | AttemptCreating | AttemptCreated | AttemptRunning | AttemptStopped

  /** The adjacent changes of a Sandbox. */
  predicate SandboxEdge(from: SandboxPhase, to: SandboxPhase) {
    match from
    case SandboxAbsent => to == SandboxCreating
    case SandboxCreating => to == SandboxReady || to == SandboxAbsent
    case SandboxReady => to == SandboxStopping
    case SandboxStopping => to == SandboxStopped
    case SandboxStopped => to == SandboxAbsent
  }

  /** The adjacent changes of an Attempt. */
  predicate AttemptEdge(from: AttemptPhase, to: AttemptPhase) {
    match from
    case AttemptAbsent => to == AttemptCreating
    case AttemptCreating => to == AttemptCreated || to == AttemptStopped
    case AttemptCreated => to == AttemptRunning || to == AttemptStopped
    case AttemptRunning => to == AttemptStopped
    case AttemptStopped => to == AttemptAbsent
  }

  /** The place of a phase in the round from absent to absent. */
  function SandboxAge(p: SandboxPhase): nat {
    match p case SandboxAbsent => 0 case SandboxCreating => 1 case SandboxReady => 2 case SandboxStopping => 3 case SandboxStopped => 4
  }

  function AttemptAge(p: AttemptPhase): nat {
    match p case AttemptAbsent => 0 case AttemptCreating => 1 case AttemptCreated => 2 case AttemptRunning => 3 case AttemptStopped => 4
  }

  /** Both go round one phase at a time; a creating Sandbox may also vanish, and an Attempt may stop from any active phase. */
  lemma PhasesGoRound(s: SandboxPhase, s': SandboxPhase, a: AttemptPhase, a': AttemptPhase)
    ensures SandboxEdge(s, s') <==> SandboxAge(s') == (SandboxAge(s) + 1) % 5 || (s == SandboxCreating && s' == SandboxAbsent)
    ensures AttemptEdge(a, a') <==> AttemptAge(a') == (AttemptAge(a) + 1) % 5 || (IsActiveAttempt(a) && a' == AttemptStopped)
  {
  }

  /** Phases that keep another Attempt out of the same Sandbox. */
  predicate IsActiveAttempt(p: AttemptPhase) {
    p == AttemptCreating || p == AttemptCreated || p == AttemptRunning
  }

  predicate IsSpace(c: char) {
    var n := c as int;
    || 9 <= n <= 13 || n == 0x20 || n == 0x85 || n == 0xA0 || n == 0x1680 || 0x2000 <= n <= 0x200A
    || n == 0x2028 || n == 0x2029 || n == 0x202F || n == 0x205F || n == 0x3000
  }

  /** Nothing is left of the text once the space around it is removed. */
  predicate Blank(s: string) { forall c :: c in s ==> IsSpace(c) }

  predicate HasNul(s: string) { '\0' in s }

  datatype Condition = Condition(kind: string, reason: string, message: string) {
    predicate Valid() {
      !Blank(kind) && !Blank(reason) && !HasNul(kind) && !HasNul(reason) && !HasNul(message)
    }
  }

  const OUTCOME_UNKNOWN: string := "OutcomeUnknown"

  datatype Observation = Observation(operation: string, sequence: nat, reason: string) {
    predicate Valid() {
      || (operation == "" && sequence == 0 && reason == "")
      || (!Blank(operation) && sequence != 0 && !Blank(reason) && !HasNul(operation) && !HasNul(reason))
    }
  }

  const NO_OBSERVATION: Observation := Observation("", 0, "")

  datatype ProcessIdentity = ProcessIdentity(verified: bool, handle: string, evidence: string) {
    predicate Valid() {
      verified && !Blank(handle) && !Blank(evidence) && !HasNul(handle) && !HasNul(evidence)
    }
  }

  datatype Streams = Streams(stdin: string, stdout: string, stderr: string) {
    predicate Valid() { !HasNul(stdin) && !HasNul(stdout) && !HasNul(stderr) }
  }

  datatype Evidence = EvidenceUnknown | EvidenceFalse | EvidenceTrue

  datatype Presence = Pending | NotApplicable | Captured | Unknown

  /** Terminal facts; times and durations are plain numbers. */
  datatype Outcome = Outcome(
    presence: Presence, exitCode: Option<int>, signal: string, oom: Evidence,
    startedAt: Option<int>, finishedAt: Option<int>, runningDuration: Option<int>)
  {
    predicate Valid() {
      && (runningDuration.Some? ==> runningDuration.value >= 0)
      && match presence
         case Pending =>
           exitCode.None? && signal == "" && finishedAt.None? && runningDuration.None? && oom == EvidenceUnknown
         case NotApplicable =>
           && exitCode.None? && signal == "" && startedAt.None? && finishedAt.None? && runningDuration.None?
           && oom == EvidenceUnknown
         case Captured =>
           && (exitCode.None? <==> signal != "")
           && (exitCode.Some? ==> exitCode.value >= 0)
           && (signal != "" ==> !Blank(signal) && !HasNul(signal))
           && startedAt.Some? && finishedAt.Some? && runningDuration.Some?
         case Unknown => exitCode.None? && signal == "" && runningDuration.None?
    }
  }

  const PENDING: Outcome := Outcome(Pending, None, "", EvidenceUnknown, None, None, None)

  /** What a change of phase may say of the outcome, given whether the workload ever ran. */
  predicate OutcomeFits(from: AttemptPhase, to: AttemptPhase, o: Outcome) {
    && o.Valid()
    && (to != AttemptStopped && to != AttemptAbsent ==> o.presence == Pending)
    && (to == AttemptStopped || to == AttemptAbsent ==>
          match from
          case AttemptCreating => o.presence == NotApplicable || o.presence == Unknown
          case AttemptCreated => o.presence == NotApplicable || o.presence == Unknown
          case AttemptRunning => o.presence == Captured || o.presence == Unknown
          case AttemptStopped => o.presence != Pending
          case AttemptAbsent => true)
  }

  /** Every condition is valid and no two share a kind. */
  predicate ConditionsValid(cs: seq<Condition>) {
    && (forall i :: 0 <= i < |cs| ==> cs[i].Valid())
    && (forall i, j :: 0 <= i < j < |cs| ==> cs[i].kind != cs[j].kind)
  }

  predicate HasCondition(cs: seq<Condition>, kind: string) {
    exists i :: 0 <= i < |cs| && cs[i].kind == kind
  }

  /** Finds the first invalid or repeated condition with one pass over the kinds seen so far. */
  method ValidateConditions(cs: seq<Condition>) returns (ok: bool)
    ensures ok <==> ConditionsValid(cs)
  {
    var seen: set<string> := {};
    for i := 0 to |cs|
      invariant ConditionsValid(cs[..i])
      invariant seen == set k | 0 <= k < i :: cs[k].kind
    {
      if !cs[i].Valid() || cs[i].kind in seen {
        return false;
      }
      seen := seen + {cs[i].kind};
    }
    assert cs[..|cs|] == cs;
    return true;
  }

  /** The conditions with one kind replaced where it stands, or added at the end. */
  function Upserted(cs: seq<Condition>, c: Condition): seq<Condition> {
    if cs == [] then [c]
    else if cs[0].kind == c.kind then [c] + cs[1..]
    else [cs[0]] + Upserted(cs[1..], c)
  }

  function Without(cs: seq<Condition>, kind: string): seq<Condition> {
    if cs == [] then []
    else (if cs[0].kind == kind then [] else [cs[0]]) + Without(cs[1..], kind)
  }

  method UpsertConditions(cs: seq<Condition>, c: Condition) returns (r: seq<Condition>)
    ensures r == Upserted(cs, c)
  {
    for i := 0 to |cs|
      invariant Upserted(cs, c) == cs[..i] + Upserted(cs[i..], c)
    {
      if cs[i].kind == c.kind {
        return cs[i := c];
      }
    }
    r := cs + [c];
  }

  method WithoutConditions(cs: seq<Condition>, kind: string) returns (r: seq<Condition>)
    ensures r == Without(cs, kind)
  {
    r := [];
    for i := 0 to |cs|
      invariant Without(cs, kind) == r + Without(cs[i..], kind)
    {
      if cs[i].kind != kind {
        r := r + [cs[i]];
      }
    }
  }

  lemma {:induction false} UpsertedKinds(cs: seq<Condition>, c: Condition)
    requires ConditionsValid(cs) && c.Valid()
    ensures forall d :: d in Upserted(cs, c) <==> d == c || (d in cs && d.kind != c.kind)
  {
    hide Blank, HasNul;
    if cs != [] {
      assert cs == [cs[0]] + cs[1..];
      if cs[0].kind != c.kind {
        UpsertedKinds(cs[1..], c);
      }
    }
  }

  /** One element in front of valid conditions of other kinds. */
  lemma Prepended(c: Condition, cs: seq<Condition>)
    requires ConditionsValid(cs) && c.Valid() && forall d :: d in cs ==> d.kind != c.kind
    ensures ConditionsValid([c] + cs)
  {
    hide Blank, HasNul;
  }

  /** An upsert leaves exactly one condition of that kind and every other condition as it was. */
  lemma {:induction false} UpsertedMembers(cs: seq<Condition>, c: Condition)
    requires ConditionsValid(cs) && c.Valid()
    ensures forall d :: d in Upserted(cs, c) <==> d == c || (d in cs && d.kind != c.kind)
    ensures ConditionsValid(Upserted(cs, c))
  {
    hide Blank, HasNul, Condition.Valid;
    UpsertedKinds(cs, c);
    if cs != [] {
      UpsertedMembers(cs[1..], c);
      if cs[0].kind == c.kind {
        Prepended(c, cs[1..]);
      } else {
        Prepended(cs[0], Upserted(cs[1..], c));
      }
    }
  }

  lemma {:induction false} WithoutKinds(cs: seq<Condition>, kind: string)
    ensures forall d :: d in Without(cs, kind) <==> d in cs && d.kind != kind
  {
    if cs != [] {
      assert cs == [cs[0]] + cs[1..];
      WithoutKinds(cs[1..], kind);
    }
  }

  /** Removing a kind removes it and nothing else. */
  lemma {:induction false} WithoutMembers(cs: seq<Condition>, kind: string)
    requires ConditionsValid(cs)
    ensures forall d :: d in Without(cs, kind) <==> d in cs && d.kind != kind
    ensures ConditionsValid(Without(cs, kind))
  {
    hide Blank, HasNul, Condition.Valid;
    WithoutKinds(cs, kind);
    if cs != [] {
      WithoutMembers(cs[1..], kind);
      if cs[0].kind == kind {
        assert Without(cs, kind) == Without(cs[1..], kind);
      } else {
        Prepended(cs[0], Without(cs[1..], kind));
      }
    }
  }

  lemma HasConditionOfMembers(cs: seq<Condition>, kind: string)
    ensures HasCondition(cs, kind) <==> exists c :: c in cs && c.kind == kind
  {
    if c :| c in cs && c.kind == kind {
      var i :| 0 <= i < |cs| && cs[i] == c;
    }
  }
}
