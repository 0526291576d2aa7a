/**
 The Container and Attempt pair: the Attempt is the authority, the Container's
 status repeats it. Every mutator succeeds and keeps the whole invariant, or
 fails and leaves the pair as it was.
 */
module ContainerAttempts {
  import opened Results
  import opened Domain

  const SCHEMA_VERSION: nat := 1
  const INITIAL_GENERATION: nat := 1

  datatype Status = Status(
    phase: AttemptPhase, generation: nat, observed: nat, conditions: seq<Condition>,
    process: Option<ProcessIdentity>, streams: Streams, outcome: Outcome, observation: Observation)

  datatype Container = Container(schema: nat, id: string, sandbox: string, attempt: string, spec: string, status: Status)

  datatype Attempt = Attempt(
    schema: nat, id: string, sandbox: string, container: string, phase: AttemptPhase, conditions: seq<Condition>,
    process: Option<ProcessIdentity>, streams: Streams, outcome: Outcome, observation: Observation)

  datatype Pair = Pair(container: Container, attempt: Attempt)

  /** The character rules of identifiers and the checks of an immutable spec are not looked into. */
  datatype Rules = Rules(idOk: string -> bool, specOk: string -> bool)

  predicate Identified(rules: Rules, p: Pair) {
    && p.container.schema == SCHEMA_VERSION && p.attempt.schema == SCHEMA_VERSION
    && rules.idOk(p.container.id) && rules.idOk(p.attempt.id) && rules.idOk(p.container.sandbox)
    && p.container.attempt == p.attempt.id && p.attempt.container == p.container.id
    && p.attempt.sandbox == p.container.sandbox
    && rules.specOk(p.container.spec)
  }

  /** What has been reconciled: nothing while creating, the spec from Created to Running. */
  predicate GenerationFits(s: Status) {
    && s.generation == INITIAL_GENERATION && s.observed <= s.generation
    && (s.phase == AttemptCreating ==> s.observed == 0)
    && (s.phase == AttemptCreated || s.phase == AttemptRunning ==> s.observed == s.generation)
  }

  predicate PhaseFits(a: Attempt) {
    && (IsActiveAttempt(a.phase) ==> a.outcome.presence == Pending)
    && (a.phase == AttemptStopped ==> a.outcome.presence != Pending)
    && (a.phase == AttemptRunning ==> a.process.Some? && a.process.value.Valid())
    && (a.outcome.presence == Unknown ==> HasCondition(a.conditions, OUTCOME_UNKNOWN))
  }

  /** The Container status repeats every fact of the Attempt. */
  predicate Projects(s: Status, a: Attempt) {
    && s.phase == a.phase && s.conditions == a.conditions && s.process == a.process
    && s.streams == a.streams && s.outcome == a.outcome && s.observation == a.observation
  }

  predicate Valid(rules: Rules, p: Pair) {
    && Identified(rules, p)
    && GenerationFits(p.container.status)
    && p.attempt.outcome.Valid() && p.attempt.streams.Valid() && p.attempt.observation.Valid()
    && ConditionsValid(p.attempt.conditions)
    && PhaseFits(p.attempt)
    && Projects(p.container.status, p.attempt)
  }

  /** The status that repeats an Attempt; its generations stay. */
  function Projected(s: Status, a: Attempt): Status {
    Status(a.phase, s.generation, s.observed, a.conditions, a.process, a.streams, a.outcome, a.observation)
  }

  /** The pair with other Attempt facts, repeated in the Container status. */
  function WithAttempt(p: Pair, a: Attempt): Pair {
    Pair(p.container.(status := Projected(p.container.status, a)), a)
  }

  /** When a pair can move along an edge: the outcome fits, a running Attempt has its process, an unknown outcome its condition, a fresh creation no reconciled input. */
  predicate CanTransition(p: Pair, next: AttemptPhase, o: Outcome) {
    && AttemptEdge(p.attempt.phase, next) && OutcomeFits(p.attempt.phase, next, o)
    && (next == AttemptRunning ==> p.attempt.process.Some? && p.attempt.process.value.Valid())
    && (o.presence == Unknown ==> HasCondition(p.attempt.conditions, OUTCOME_UNKNOWN))
    && (next == AttemptCreating ==> p.container.status.observed == 0)
  }

  /** The pair after such a move; becoming Created reconciles the input. */
  function Transitioned(p: Pair, next: AttemptPhase, o: Outcome): Pair {
    var status := if next == AttemptCreated then p.container.status.(observed := p.container.status.generation) else p.container.status;
    WithAttempt(p.(container := p.container.(status := status)), p.attempt.(phase := next, outcome := o))
  }

  predicate CanSetProcess(p: Pair, identity: ProcessIdentity) {
    && identity.Valid()
    && (p.attempt.process == Some(identity)
        || (p.attempt.process.None? && p.attempt.phase != AttemptStopped && p.attempt.phase != AttemptAbsent))
  }

  predicate CanSetConditions(p: Pair, conditions: seq<Condition>) {
    && ConditionsValid(conditions)
    && (p.attempt.outcome.presence == Unknown ==> HasCondition(conditions, OUTCOME_UNKNOWN))
  }

  predicate CanClearCondition(p: Pair, kind: string) {
    !Blank(kind) && !HasNul(kind) && !(p.attempt.outcome.presence == Unknown && kind == OUTCOME_UNKNOWN)
  }

  function WithProcess(p: Pair, identity: ProcessIdentity): Pair { WithAttempt(p, p.attempt.(process := Some(identity))) }

  function WithStreams(p: Pair, streams: Streams): Pair { WithAttempt(p, p.attempt.(streams := streams)) }

  function WithConditions(p: Pair, conditions: seq<Condition>): Pair { WithAttempt(p, p.attempt.(conditions := conditions)) }

  /** The creating pair of a create request. */
  function NewPair(container: string, attempt: string, sandbox: string, spec: string): Pair {
    Pair(Container(SCHEMA_VERSION, container, sandbox, attempt, spec,
                   Status(AttemptCreating, INITIAL_GENERATION, 0, [], None, NO_STREAMS, PENDING, NO_OBSERVATION)),
         Attempt(SCHEMA_VERSION, attempt, sandbox, container, AttemptCreating, [], None, NO_STREAMS, PENDING, NO_OBSERVATION))
  }

  /** A new pair is valid exactly for good identifiers and a good spec. */
  lemma NewIsValid(rules: Rules, container: string, attempt: string, sandbox: string, spec: string)
    ensures Valid(rules, NewPair(container, attempt, sandbox, spec)) <==>
              rules.idOk(container) && rules.idOk(attempt) && rules.idOk(sandbox) && rules.specOk(spec)
  {
  }

  predicate Repeated(before: Pair, after: Pair) {
    && Projects(after.container.status, after.attempt) && after.container.status.generation == before.container.status.generation
    && after.container.(status := before.container.status) == before.container
  }

  /** Each change shows in the Attempt's fields it is for and in no other; of the Container only the status repeats it. */
  lemma ChangesShow(p: Pair, next: AttemptPhase, o: Outcome, identity: ProcessIdentity, streams: Streams, cs: seq<Condition>)
    ensures Transitioned(p, next, o).attempt == p.attempt.(phase := next, outcome := o)
    ensures var s := Transitioned(p, next, o).container.status;
            s.observed == if next == AttemptCreated then p.container.status.generation else p.container.status.observed
    ensures WithProcess(p, identity).attempt == p.attempt.(process := Some(identity))
    ensures WithStreams(p, streams).attempt == p.attempt.(streams := streams)
    ensures WithConditions(p, cs).attempt == p.attempt.(conditions := cs)
    ensures Repeated(p, Transitioned(p, next, o)) && Repeated(p, WithProcess(p, identity))
    ensures Repeated(p, WithStreams(p, streams)) && Repeated(p, WithConditions(p, cs))
  {
  }

  lemma TransitionedIsValid(rules: Rules, p: Pair, next: AttemptPhase, o: Outcome)
    requires Valid(rules, p) && CanTransition(p, next, o)
    ensures Valid(rules, Transitioned(p, next, o))
  {
    hide Blank, HasNul, ConditionsValid, HasCondition;
  }

  lemma WithProcessIsValid(rules: Rules, p: Pair, identity: ProcessIdentity)
    requires Valid(rules, p) && CanSetProcess(p, identity)
    ensures Valid(rules, WithProcess(p, identity))
  {
    hide Blank, HasNul, ConditionsValid, HasCondition;
  }

  lemma WithStreamsIsValid(rules: Rules, p: Pair, streams: Streams)
    requires Valid(rules, p) && streams.Valid()
    ensures Valid(rules, WithStreams(p, streams))
  {
    hide Blank, HasNul, ConditionsValid, HasCondition;
  }

  lemma WithConditionsIsValid(rules: Rules, p: Pair, conditions: seq<Condition>)
    requires Valid(rules, p) && CanSetConditions(p, conditions)
    ensures Valid(rules, WithConditions(p, conditions))
  {
    hide Blank, HasNul, ConditionsValid, HasCondition;
  }

  /** A valid condition can always be added or replaced. */
  lemma CanUpsert(rules: Rules, p: Pair, c: Condition)
    requires Valid(rules, p) && c.Valid()
    ensures CanSetConditions(p, Upserted(p.attempt.conditions, c))
  {
    hide Blank, HasNul, Identified;
    UpsertedMembers(p.attempt.conditions, c);
    UpsertKeepsKinds(p.attempt.conditions, c, OUTCOME_UNKNOWN);
  }

  /** A kind can be removed unless it is the evidence of an unknown outcome. */
  lemma CanClear(rules: Rules, p: Pair, kind: string)
    requires Valid(rules, p)
    ensures CanSetConditions(p, Without(p.attempt.conditions, kind)) <==>
              !(p.attempt.outcome.presence == Unknown && kind == OUTCOME_UNKNOWN)
  {
    hide Blank, HasNul, Identified;
    WithoutMembers(p.attempt.conditions, kind);
    HasConditionOfMembers(p.attempt.conditions, OUTCOME_UNKNOWN);
    HasConditionOfMembers(Without(p.attempt.conditions, kind), OUTCOME_UNKNOWN);
  }

  /** Checks a pair, one rule after the other. */
  method Validate(rules: Rules, p: Pair) returns (error: Option<Code>)
    ensures error.None? <==> Valid(rules, p)
  {
    hide Blank, HasNul;
    if !Identified(rules, p) {
      return Some(InvalidArgument);
    }
    if p.container.status.phase != p.attempt.phase || !GenerationFits(p.container.status) {
      return Some(InvalidArgument);
    }
    if !p.attempt.outcome.Valid() || !p.attempt.streams.Valid() || !p.attempt.observation.Valid() {
      return Some(InvalidArgument);
    }
    var distinct := ValidateConditions(p.attempt.conditions);
    if !distinct {
      return Some(InvalidArgument);
    }
    if IsActiveAttempt(p.attempt.phase) && p.attempt.outcome.presence != Pending {
      return Some(InvalidArgument);
    }
    if p.attempt.phase == AttemptStopped && p.attempt.outcome.presence == Pending {
      return Some(InvalidArgument);
    }
    if p.attempt.phase == AttemptRunning && (p.attempt.process.None? || !p.attempt.process.value.Valid()) {
      return Some(UnsafeIdentity);
    }
    if p.attempt.outcome.presence == Unknown && !HasCondition(p.attempt.conditions, OUTCOME_UNKNOWN) {
      return Some(OutcomeUnknownCode);
    }
    if !Projects(p.container.status, p.attempt) {
      return Some(InvalidArgument);
    }
    error := None;
  }

  class ContainerAttempt {
    const rules: Rules
    var container: Container
    var attempt: Attempt

    function Value(): Pair
      reads this
    {
      Pair(container, attempt)
    }

    constructor (rules: Rules, p: Pair)
      requires Valid(rules, p)
      ensures Value() == p && this.rules == rules
    {
      this.rules, container, attempt := rules, p.container, p.attempt;
    }

    method ProjectAttempt()
      modifies this`container
      ensures container == old(container).(status := Projected(old(container.status), attempt))
    {
      container := container.(status := Projected(container.status, attempt));
    }

    /** Moves the Attempt along one edge, exactly when it can, or changes nothing. */
    method Transition(next: AttemptPhase, outcome: Outcome) returns (error: Option<Code>)
      requires Valid(rules, Value())
      modifies this
      ensures Valid(rules, Value())
      ensures error.None? <==> CanTransition(old(Value()), next, outcome)
      ensures Value() == if error.None? then Transitioned(old(Value()), next, outcome) else old(Value())
    {
      hide Blank, HasNul, Identified, ConditionsValid, HasCondition;
      if !AttemptEdge(attempt.phase, next) {
        return Some(InvalidTransition);
      }
      if !OutcomeFits(attempt.phase, next, outcome) {
        return Some(InvalidArgument);
      }
      var previous := Value();
      attempt := attempt.(phase := next, outcome := outcome);
      if next == AttemptCreated {
        container := container.(status := container.status.(observed := container.status.generation));
      }
      ProjectAttempt();
      IdentifiedKept(rules, previous, Value());
      error := Validate(rules, Value());
      if error.Some? {
        container, attempt := previous.container, previous.attempt;
      }
    }

    /** Records the process once. The check at the end never fails, so nothing needs to be taken back. */
    method SetProcessIdentity(identity: ProcessIdentity) returns (error: Option<Code>)
      requires Valid(rules, Value())
      modifies this
      ensures Valid(rules, Value())
      ensures error.None? <==> CanSetProcess(old(Value()), identity)
      ensures Value() == if error.None? then WithProcess(old(Value()), identity) else old(Value())
    {
      hide Blank, HasNul, Identified, ConditionsValid, HasCondition;
      if !identity.Valid() {
        return Some(UnsafeIdentity);
      }
      if attempt.process.Some? {
        return if attempt.process.value != identity then Some(FailedPrecondition) else None;
      }
      if attempt.phase == AttemptStopped || attempt.phase == AttemptAbsent {
        return Some(FailedPrecondition);
      }
      ghost var previous := Value();
      attempt := attempt.(process := Some(identity));
      ProjectAttempt();
      IdentifiedKept(rules, previous, Value());
      error := Validate(rules, Value());
    }

    method SetStreams(streams: Streams) returns (error: Option<Code>)
      requires Valid(rules, Value())
      modifies this
      ensures Valid(rules, Value())
      ensures error.None? <==> streams.Valid()
      ensures Value() == if error.None? then WithStreams(old(Value()), streams) else old(Value())
    {
      hide Blank, HasNul, Identified, ConditionsValid, HasCondition;
      if !streams.Valid() {
        return Some(InvalidArgument);
      }
      ghost var previous := Value();
      attempt := attempt.(streams := streams);
      ProjectAttempt();
      IdentifiedKept(rules, previous, Value());
      error := Validate(rules, Value());
    }

    /** Event sequences never go back. */
    method SetLastObservation(observation: Observation) returns (error: Option<Code>)
      requires Valid(rules, Value())
      modifies this
      ensures Valid(rules, Value())
      ensures error.None? <==> observation.Valid() && observation.sequence >= old(attempt.observation.sequence)
      ensures if error.None? then attempt == old(attempt).(observation := observation) else Value() == old(Value())
      ensures container == old(container).(status := Projected(old(container.status), attempt))
    {
      hide Blank, HasNul, Identified, ConditionsValid, HasCondition;
      if !observation.Valid() {
        return Some(InvalidArgument);
      }
      if observation.sequence < attempt.observation.sequence {
        return Some(InvalidTransition);
      }
      ghost var previous := Value();
      attempt := attempt.(observation := observation);
      ProjectAttempt();
      IdentifiedKept(rules, previous, Value());
      error := Validate(rules, Value());
    }

    /** Replaces all conditions, unless that would take the evidence of an unknown outcome away. */
    method SetConditions(conditions: seq<Condition>) returns (error: Option<Code>)
      requires Valid(rules, Value())
      modifies this
      ensures Valid(rules, Value())
      ensures error.None? <==> CanSetConditions(old(Value()), conditions)
      ensures Value() == if error.None? then WithConditions(old(Value()), conditions) else old(Value())
    {
      hide Blank, HasNul, Identified, ConditionsValid, HasCondition;
      var ok := ValidateConditions(conditions);
      if !ok {
        return Some(InvalidArgument);
      }
      var changed := attempt.(conditions := conditions);
      var candidate := Pair(container.(status := Projected(container.status, changed)), changed);
      IdentifiedKept(rules, Value(), candidate);
      error := Validate(rules, candidate);
      if error.None? {
        container, attempt := candidate.container, candidate.attempt;
      }
    }

    /** Adds or replaces one condition and touches no other; a valid condition is never refused. */
    method UpsertCondition(condition: Condition) returns (error: Option<Code>)
      requires Valid(rules, Value())
      modifies this
      ensures Valid(rules, Value())
      ensures error.None? <==> condition.Valid()
      ensures Value() == if error.None? then WithConditions(old(Value()), Upserted(old(attempt.conditions), condition)) else old(Value())
    {
      hide Blank, HasNul, Identified;
      if !condition.Valid() {
        return Some(InvalidArgument);
      }
      CanUpsert(rules, Value(), condition);
      hide ConditionsValid, HasCondition;
      var conditions := UpsertConditions(attempt.conditions, condition);
      error := SetConditions(conditions);
    }

    /** Removes one kind of condition and no other; the evidence of an unknown outcome cannot be removed. */
    method ClearCondition(kind: string) returns (error: Option<Code>)
      requires Valid(rules, Value())
      modifies this
      ensures Valid(rules, Value())
      ensures error.None? <==> CanClearCondition(old(Value()), kind)
      ensures Value() == if error.None? then WithConditions(old(Value()), Without(old(attempt.conditions), kind)) else old(Value())
    {
      hide Identified;
      if Blank(kind) || HasNul(kind) {
        return Some(InvalidArgument);
      }
      hide Blank, HasNul;
      CanClear(rules, Value(), kind);
      hide ConditionsValid, HasCondition;
      var conditions := WithoutConditions(attempt.conditions, kind);
      error := SetConditions(conditions);
    }
  }

  lemma UpsertKeepsKinds(cs: seq<Condition>, c: Condition, kind: string)
    requires ConditionsValid(cs) && c.Valid()
    ensures HasCondition(cs, kind) ==> HasCondition(Upserted(cs, c), kind)
  {
    hide Blank, HasNul, ConditionsValid;
    UpsertedMembers(cs, c);
    HasConditionOfMembers(cs, kind);
    HasConditionOfMembers(Upserted(cs, c), kind);
    if d :| d in cs && d.kind == kind {
      assert d in Upserted(cs, c) || c.kind == kind;
    }
  }

  lemma IdentifiedKept(rules: Rules, p: Pair, q: Pair)
    requires Identified(rules, p)
    requires q.container == p.container.(status := q.container.status)
    requires q.attempt.schema == p.attempt.schema && q.attempt.id == p.attempt.id
    requires q.attempt.sandbox == p.attempt.sandbox && q.attempt.container == p.attempt.container
    ensures Identified(rules, q)
  {
  }

  /**
   A removal is meant to preserve the terminal outcome. From a valid Stopped
   pair it succeeds exactly with a valid terminal outcome, whose condition is
   there if it is unknown, and the outcome is preserved exactly when the caller
   passes the stored one.
   */
  lemma RemovalKeepsOutcome(rules: Rules, p: Pair, o: Outcome)
    requires Valid(rules, p) && p.attempt.phase == AttemptStopped
    ensures CanTransition(p, AttemptAbsent, o) <==>
              o.Valid() && o.presence != Pending && (o.presence == Unknown ==> HasCondition(p.attempt.conditions, OUTCOME_UNKNOWN))
    ensures CanTransition(p, AttemptAbsent, o) ==> Valid(rules, Transitioned(p, AttemptAbsent, o))
    ensures Transitioned(p, AttemptAbsent, o).attempt.outcome == p.attempt.outcome <==> o == p.attempt.outcome
  {
    if CanTransition(p, AttemptAbsent, o) {
      TransitionedIsValid(rules, p, AttemptAbsent, o);
    }
  }

  /** The stored outcome is always accepted again, and so is another one: every valid Stopped pair can lose its outcome. */
  lemma RemovalMayChangeOutcome(rules: Rules, p: Pair) returns (o: Outcome)
    requires Valid(rules, p) && p.attempt.phase == AttemptStopped
    ensures CanTransition(p, AttemptAbsent, p.attempt.outcome)
    ensures CanTransition(p, AttemptAbsent, o) && Valid(rules, Transitioned(p, AttemptAbsent, o))
    ensures Transitioned(p, AttemptAbsent, o).attempt.outcome != p.attempt.outcome
  {
    var code := if p.attempt.outcome.exitCode == Some(0) then 137 else 0;
    o := Outcome(Captured, Some(code), "", EvidenceFalse, Some(1), Some(2), Some(1));
    RemovalKeepsOutcome(rules, p, o);
    RemovalKeepsOutcome(rules, p, p.attempt.outcome);
  }

  const NO_STREAMS: Streams := Streams("", "", "")

  /** A workload that ran and exited with zero. */
  const EXITED_ATTEMPT: Attempt :=
    Attempt(SCHEMA_VERSION, "a", "s", "c", AttemptStopped, [], Some(ProcessIdentity(true, "p", "e")), NO_STREAMS, EXIT_ZERO, NO_OBSERVATION)

  const EXITED: Pair :=
    Pair(Container(SCHEMA_VERSION, "c", "s", "a", "",
                   Status(AttemptStopped, 1, 1, [], EXITED_ATTEMPT.process, NO_STREAMS, EXIT_ZERO, NO_OBSERVATION)),
         EXITED_ATTEMPT)

  const EXIT_ZERO: Outcome := Outcome(Captured, Some(0), "", EvidenceFalse, Some(1), Some(2), Some(1))

  /** One such pair, before and after: it exited with zero, and its removal says it was killed for lack of memory. */
  lemma ExitedBecomesKilled()
    ensures var rules := Rules(_ => true, _ => true);
            var killed := Outcome(Captured, Some(137), "", EvidenceTrue, Some(1), Some(2), Some(1));
            && Valid(rules, EXITED) && EXITED.attempt.phase == AttemptStopped && EXITED.attempt.outcome == EXIT_ZERO
            && CanTransition(EXITED, AttemptAbsent, killed)
            && Valid(rules, Transitioned(EXITED, AttemptAbsent, killed))
            && Transitioned(EXITED, AttemptAbsent, killed).attempt.outcome == killed != EXIT_ZERO
  {
  }
}
