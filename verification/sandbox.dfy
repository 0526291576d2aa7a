/** The Sandbox aggregate: phase, generations, current execution pair, conditions and last observation. */
module Sandboxes {
  import opened Results
  import opened Domain

  const SCHEMA_VERSION: nat := 1
  const INITIAL_GENERATION: nat := 1

  /** The Container and the Attempt that currently execute; both or neither. */
  datatype Status = Status(
    phase: SandboxPhase, generation: nat, observed: nat, conditions: seq<Condition>,
    currentContainer: Option<string>, currentAttempt: Option<string>, observation: Observation)

  datatype SandboxValue = SandboxValue(schema: nat, id: string, spec: string, status: Status)

  datatype Rules = Rules(idOk: string -> bool, specOk: string -> bool)

  predicate CurrentFits(rules: Rules, s: Status) {
    && (s.currentContainer.None? <==> s.currentAttempt.None?)
    && (s.currentContainer.Some? ==> rules.idOk(s.currentContainer.value))
    && (s.currentAttempt.Some? ==> rules.idOk(s.currentAttempt.value))
  }

  predicate GenerationFits(s: Status) {
    && s.generation == INITIAL_GENERATION && s.observed <= s.generation
    && (s.phase == SandboxReady ==> s.observed == s.generation)
  }

  predicate Valid(rules: Rules, v: SandboxValue) {
    && v.schema == SCHEMA_VERSION && rules.idOk(v.id) && rules.specOk(v.spec)
    && GenerationFits(v.status) && CurrentFits(rules, v.status)
    && v.status.observation.Valid() && ConditionsValid(v.status.conditions)
  }

  /** The Sandbox after one edge; becoming Ready reconciles its input. */
  function WithPhase(v: SandboxValue, next: SandboxPhase): SandboxValue {
    v.(status := v.status.(phase := next, observed := if next == SandboxReady then INITIAL_GENERATION else v.status.observed))
  }

  function WithCurrent(v: SandboxValue, container: string, attempt: string): SandboxValue {
    v.(status := v.status.(currentContainer := Some(container), currentAttempt := Some(attempt)))
  }

  function WithoutCurrent(v: SandboxValue): SandboxValue {
    v.(status := v.status.(currentContainer := None, currentAttempt := None))
  }

  function WithConditions(v: SandboxValue, conditions: seq<Condition>): SandboxValue {
    v.(status := v.status.(conditions := conditions))
  }

  /** The creating Sandbox of a create request. */
  function NewSandbox(id: string, spec: string): SandboxValue {
    SandboxValue(SCHEMA_VERSION, id, spec, Status(SandboxCreating, INITIAL_GENERATION, 0, [], None, None, NO_OBSERVATION))
  }

  /** What each change leaves valid. */
  lemma ChangesAreValid(rules: Rules, v: SandboxValue)
    requires Valid(rules, v)
    ensures forall next :: SandboxEdge(v.status.phase, next) ==> Valid(rules, WithPhase(v, next))
    ensures forall c, a :: rules.idOk(c) && rules.idOk(a) ==> Valid(rules, WithCurrent(v, c, a))
    ensures Valid(rules, WithoutCurrent(v))
    ensures forall cs :: ConditionsValid(cs) ==> Valid(rules, WithConditions(v, cs))
  {
    hide ConditionsValid;
  }

  /** Each change shows in the fields it is for, and in no other. */
  lemma ChangesShow(v: SandboxValue, next: SandboxPhase, container: string, attempt: string, cs: seq<Condition>)
    ensures var t := WithPhase(v, next);
            && t.status.phase == next && (next == SandboxReady ==> t.status.observed == INITIAL_GENERATION)
            && (next != SandboxReady ==> t.status.observed == v.status.observed)
            && t.(status := t.status.(phase := v.status.phase, observed := v.status.observed)) == v
    ensures var t := WithCurrent(v, container, attempt);
            && t.status.currentContainer == Some(container) && t.status.currentAttempt == Some(attempt)
            && t.(status := t.status.(currentContainer := v.status.currentContainer, currentAttempt := v.status.currentAttempt)) == v
    ensures var t := WithoutCurrent(v);
            && t.status.currentContainer.None? && t.status.currentAttempt.None?
            && t.(status := t.status.(currentContainer := v.status.currentContainer, currentAttempt := v.status.currentAttempt)) == v
    ensures var t := WithConditions(v, cs);
            t.status.conditions == cs && t.(status := t.status.(conditions := v.status.conditions)) == v
  {
  }

  /** A new Sandbox is valid exactly for a good identifier and spec. */
  lemma NewIsValid(rules: Rules, id: string, spec: string)
    ensures Valid(rules, NewSandbox(id, spec)) <==> rules.idOk(id) && rules.specOk(spec)
  {
  }

  /** Checks a Sandbox, one rule after the other. */
  method Validate(rules: Rules, v: SandboxValue) returns (error: Option<Code>)
    ensures error.None? <==> Valid(rules, v)
  {
    if v.schema != SCHEMA_VERSION || !rules.idOk(v.id) || !rules.specOk(v.spec) {
      return Some(InvalidArgument);
    }
    if v.status.generation != INITIAL_GENERATION || v.status.observed > v.status.generation {
      return Some(InvalidArgument);
    }
    if v.status.phase == SandboxReady && v.status.observed != v.status.generation {
      return Some(InvalidArgument);
    }
    if v.status.currentContainer.None? != v.status.currentAttempt.None? {
      return Some(InvalidArgument);
    }
    if v.status.currentContainer.Some?
       && (!rules.idOk(v.status.currentContainer.value) || !rules.idOk(v.status.currentAttempt.value)) {
      return Some(InvalidArgument);
    }
    if !v.status.observation.Valid() {
      return Some(InvalidArgument);
    }
    var distinct := ValidateConditions(v.status.conditions);
    error := if distinct then None else Some(InvalidArgument);
  }

  class Sandbox {
    const rules: Rules
    const schema: nat
    const id: string
    const spec: string
    var status: Status

    function Value(): SandboxValue
      reads this
    {
      SandboxValue(schema, id, spec, status)
    }

    constructor (rules: Rules, v: SandboxValue)
      requires Valid(rules, v)
      ensures Value() == v && this.rules == rules
    {
      this.rules, schema, id, spec, status := rules, v.schema, v.id, v.spec, v.status;
    }

    /** Moves along one edge; from a valid Sandbox nothing but a missing edge can refuse it, so the rollback is never taken. */
    method Transition(next: SandboxPhase) returns (error: Option<Code>)
      requires Valid(rules, Value())
      modifies this
      ensures Valid(rules, Value())
      ensures error.None? <==> SandboxEdge(old(status.phase), next)
      ensures Value() == if error.None? then WithPhase(old(Value()), next) else old(Value())
    {
      hide ConditionsValid;
      if !SandboxEdge(status.phase, next) {
        return Some(InvalidTransition);
      }
      status := status.(phase := next);
      if next == SandboxReady {
        status := status.(observed := status.generation);
      }
      error := Validate(rules, Value());
      if error.Some? {
        assert false;
      }
    }

    /** The check at the end never fails, so a new current pair is never half recorded. */
    method SetCurrentPair(container: string, attempt: string) returns (error: Option<Code>)
      requires Valid(rules, Value())
      modifies this
      ensures Valid(rules, Value())
      ensures error.None? <==> rules.idOk(container) && rules.idOk(attempt)
      ensures Value() == if error.None? then WithCurrent(old(Value()), container, attempt) else old(Value())
    {
      hide ConditionsValid;
      if !rules.idOk(container) || !rules.idOk(attempt) {
        return Some(InvalidArgument);
      }
      status := status.(currentContainer := Some(container));
      status := status.(currentAttempt := Some(attempt));
      error := Validate(rules, Value());
    }

    /** Clears the current pair only when it is still the given one. */
    method ClearCurrentPair(container: string, attempt: string) returns (error: Option<Code>)
      requires Valid(rules, Value())
      modifies this
      ensures Valid(rules, Value())
      ensures error.None? <==> old(status.currentContainer) == Some(container) && old(status.currentAttempt) == Some(attempt)
      ensures Value() == if error.None? then WithoutCurrent(old(Value())) else old(Value())
    {
      hide ConditionsValid;
      if status.currentContainer.None? || status.currentAttempt.None?
         || status.currentContainer.value != container || status.currentAttempt.value != attempt {
        return Some(FailedPrecondition);
      }
      status := status.(currentContainer := None);
      status := status.(currentAttempt := None);
      error := Validate(rules, Value());
    }

    method SetLastObservation(observation: Observation) returns (error: Option<Code>)
      requires Valid(rules, Value())
      modifies this
      ensures Valid(rules, Value())
      ensures error.None? <==> observation.Valid() && observation.sequence >= old(status.observation.sequence)
      ensures status == if error.Some? then old(status) else old(status).(observation := observation)
    {
      hide ConditionsValid, Blank, HasNul;
      if !observation.Valid() {
        return Some(InvalidArgument);
      }
      if observation.sequence < status.observation.sequence {
        return Some(InvalidTransition);
      }
      status := status.(observation := observation);
      error := Validate(rules, Value());
    }

    method SetConditions(conditions: seq<Condition>) returns (error: Option<Code>)
      requires Valid(rules, Value())
      modifies this
      ensures Valid(rules, Value())
      ensures error.None? <==> ConditionsValid(conditions)
      ensures Value() == if error.None? then WithConditions(old(Value()), conditions) else old(Value())
    {
      hide ConditionsValid;
      var ok := ValidateConditions(conditions);
      if !ok {
        return Some(InvalidArgument);
      }
      var candidate := Value().(status := status.(conditions := conditions));
      error := Validate(rules, candidate);
      if error.None? {
        status := candidate.status;
      }
    }

    /** Adds or replaces one condition and touches no other. */
    method UpsertCondition(condition: Condition) returns (error: Option<Code>)
      requires Valid(rules, Value())
      modifies this
      ensures Valid(rules, Value())
      ensures error.None? <==> condition.Valid()
      ensures Value() == if error.None? then WithConditions(old(Value()), Upserted(old(status.conditions), condition)) else old(Value())
    {
      hide Blank, HasNul;
      if !condition.Valid() {
        return Some(InvalidArgument);
      }
      UpsertedMembers(status.conditions, condition);
      hide ConditionsValid;
      var conditions := UpsertConditions(status.conditions, condition);
      error := SetConditions(conditions);
    }

    /** Removes one kind of condition and no other. */
    method ClearCondition(kind: string) returns (error: Option<Code>)
      requires Valid(rules, Value())
      modifies this
      ensures Valid(rules, Value())
      ensures error.None? <==> !Blank(kind) && !HasNul(kind)
      ensures Value() == if error.None? then WithConditions(old(Value()), Without(old(status.conditions), kind)) else old(Value())
    {
      if Blank(kind) || HasNul(kind) {
        return Some(InvalidArgument);
      }
      hide Blank, HasNul;
      WithoutMembers(status.conditions, kind);
      hide ConditionsValid;
      var conditions := WithoutConditions(status.conditions, kind);
      error := SetConditions(conditions);
    }
  }
}
