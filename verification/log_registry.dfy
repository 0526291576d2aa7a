/**
 The daemon's registry of log bindings: direct registrations, owners found by a
 slow scan of the runtime directory, and unregistrations that race with both.
 Revisions tell bindings apart, epochs tell a scan that it came too late.
 */
module LogBindings {
  import opened Bytes
  import opened Results

  datatype Identity = Identity(container: string, attempt: string)
  datatype Owner = Owner(ofContainer: bool, target: string, token: string)
  datatype Source = Source(identity: Identity, serial: nat)

  datatype Error = InvalidIdentity | AlreadyRegistered | Unavailable | Unsafe | NotFound | Exhausted

  /** A binding as one moment saw it; revision zero when there was none. */
  datatype Captured = Captured(identity: Identity, revision: u64, epoch: u64)

  /** Which identities and owners are well formed, and whether a runtime root was given. */
  datatype Rules = Rules(identityOk: Identity -> bool, ownerOk: Owner -> bool, rooted: bool) {
    predicate Fits(id: Identity, owner: Owner) {
      ownerOk(owner) && owner.ofContainer && owner.target == id.container
    }
  }

  datatype Registry = Registry(
    sources: map<Identity, Source>,
    owners: map<Identity, Owner>,
    revisions: map<Identity, u64>,
    epochs: map<Identity, u64>,
    discoveredAt: map<Identity, u64>,
    next: u64)
  {
    function Epoch(id: Identity): u64 {
      if id in epochs then epochs[id] else 0
    }

    predicate Bound(id: Identity) { id in sources || id in owners }

    /** A new binding of id takes the next revision. */
    function Revised(id: Identity): Registry
      requires next < MAX_U64
    {
      this.(next := next + 1, revisions := revisions[id := next + 1])
    }

    function Advanced(id: Identity): Registry
      requires next < MAX_U64
    {
      this.(next := next + 1, epochs := epochs[id := next + 1])
    }

    function Unbound(id: Identity): Registry {
      this.(sources := sources - {id}, owners := owners - {id}, revisions := revisions - {id}, discoveredAt := discoveredAt - {id})
    }
  }

  const EMPTY: Registry := Registry(map[], map[], map[], map[], map[], 0)

  datatype Event =
    | Register(source: Source)
    | RegisterAttempt(identity: Identity, owner: Owner, rootHolds: bool)
    | RegisterDiscovered(identity: Identity, owner: Owner, epoch: u64, rootHolds: bool)
    | UnregisterAttempt(identity: Identity, owner: Owner)
    | Unregister(identity: Identity)
    | UnregisterRegistration(captured: Captured)

  /** What an operation changes: at most one identity's binding or epoch. */
  datatype Change =
    | Nothing
    | BindSource(id: Identity, source: Source)
    | BindOwner(id: Identity, owner: Owner, discovered: bool)
    | Advance(id: Identity, unbind: bool)

  function After(r: Registry, c: Change): Registry {
    if r.next == MAX_U64 then r
    else
      match c
      case Nothing => r
      case BindSource(id, source) => r.Revised(id).(discoveredAt := r.discoveredAt - {id}, sources := r.sources[id := source])
      case BindOwner(id, owner, discovered) =>
        r.Revised(id).(
        discoveredAt := if discovered then r.discoveredAt[id := r.Epoch(id)] else r.discoveredAt - {id},
        owners := r.owners[id := owner])
      case Advance(id, unbind) => if unbind then r.Advanced(id).Unbound(id) else r.Advanced(id)
  }

  /** The change an operation makes, and the error it answers when it makes none. */
  function Decide(rules: Rules, r: Registry, e: Event): (Change, Option<Error>) {
    match e
    case Register(source) =>
      var id := source.identity;
      if !rules.identityOk(id) then (Nothing, Some(InvalidIdentity))
      else if r.Bound(id) then (Nothing, Some(AlreadyRegistered))
      else if r.next == MAX_U64 then (Nothing, Some(Exhausted))
      else (BindSource(id, source), None)
    case RegisterAttempt(id, owner, rootHolds) =>
      if !rules.rooted then (Nothing, Some(Unavailable))
      else if !rules.identityOk(id) then (Nothing, Some(InvalidIdentity))
      else if !rules.Fits(id, owner) || !rootHolds then (Nothing, Some(Unsafe))
      else if r.Bound(id) then
        (Nothing, if id !in r.sources && r.owners[id] == owner then None else Some(AlreadyRegistered))
      else if r.next == MAX_U64 then (Nothing, Some(Exhausted))
      else (BindOwner(id, owner, false), None)
    case RegisterDiscovered(id, owner, epoch, rootHolds) =>
      if !rules.identityOk(id) then (Nothing, Some(InvalidIdentity))
      else if !rules.Fits(id, owner) then (Nothing, Some(Unsafe))
      else if !rules.rooted then (Nothing, Some(Unavailable))
      else if !rootHolds then (Nothing, Some(Unsafe))
      else if r.Epoch(id) != epoch then (Nothing, Some(NotFound))
      else if r.Bound(id) then
        (Nothing, if id !in r.sources && r.owners[id] == owner then None else Some(AlreadyRegistered))
      else if r.next == MAX_U64 then (Nothing, Some(Exhausted))
      else (BindOwner(id, owner, true), None)
    case UnregisterAttempt(id, owner) =>
      if !rules.identityOk(id) then (Nothing, Some(InvalidIdentity))
      else if !rules.Fits(id, owner) then (Nothing, Some(Unsafe))
      else if id in r.owners && r.owners[id] != owner then (Nothing, None)
      else if id in r.sources && id !in r.owners then (Nothing, Some(Unsafe))
      else if r.next == MAX_U64 then (Nothing, Some(Exhausted))
      else (Advance(id, true), None)
    case Unregister(id) =>
      if !rules.identityOk(id) then (Nothing, Some(InvalidIdentity))
      else if r.next == MAX_U64 then (Nothing, Some(Exhausted))
      else (Advance(id, true), None)
    case UnregisterRegistration(captured) =>
      var id := captured.identity;
      if !rules.identityOk(id) then (Nothing, Some(InvalidIdentity))
      else if r.Epoch(id) != captured.epoch then (Nothing, None)
      else if r.next == MAX_U64 then (Nothing, Some(Exhausted))
      else
        var removeCaptured := captured.revision != 0 && id in r.revisions && r.revisions[id] == captured.revision;
        var removeStale := id in r.discoveredAt && r.discoveredAt[id] == captured.epoch;
        (Advance(id, removeCaptured || removeStale), None)
  }

  /** What each operation does to the registry, and the error it answers. */
  function Apply(rules: Rules, r: Registry, e: Event): (Registry, Option<Error>) {
    (After(r, Decide(rules, r, e).0), Decide(rules, r, e).1)
  }

  /** What an identity is bound to when its deletion begins. */
  function Capture(rules: Rules, r: Registry, id: Identity): Result<(Captured, bool), Error> {
    if !rules.identityOk(id) then Err(InvalidIdentity)
    else if id !in r.revisions then
      if r.Bound(id) then Err(Unsafe) else Ok((Captured(id, 0, r.Epoch(id)), false))
    else if r.revisions[id] == 0 || (id in r.sources <==> id in r.owners) then Err(Unsafe)
    else Ok((Captured(id, r.revisions[id], r.Epoch(id)), true))
  }

  /** The registry as the daemon holds it; each method is one critical section of its mutex. */
  class LogRegistry {
    const rules: Rules
    var sources: map<Identity, Source>
    var owners: map<Identity, Owner>
    var revisions: map<Identity, u64>
    var epochs: map<Identity, u64>
    var discoveredAt: map<Identity, u64>
    var nextRevision: u64

    function Value(): Registry
      reads this
    {
      Registry(sources, owners, revisions, epochs, discoveredAt, nextRevision)
    }

    constructor (rules: Rules)
      ensures this.rules == rules && Value() == EMPTY
    {
      this.rules := rules;
      sources, owners, revisions, epochs, discoveredAt, nextRevision := map[], map[], map[], map[], map[], 0;
    }

    method AssignRevision(id: Identity) returns (ok: bool)
      modifies this`revisions, this`nextRevision
      ensures ok <==> old(nextRevision) < MAX_U64
      ensures Value() == if ok then old(Value()).Revised(id) else old(Value())
    {
      if nextRevision == MAX_U64 {
        return false;
      }
      nextRevision := nextRevision + 1;
      revisions := revisions[id := nextRevision];
      ok := true;
    }

    method AdvanceEpoch(id: Identity) returns (ok: bool)
      modifies this`epochs, this`nextRevision
      ensures ok <==> old(nextRevision) < MAX_U64
      ensures Value() == if ok then old(Value()).Advanced(id) else old(Value())
    {
      if nextRevision == MAX_U64 {
        return false;
      }
      nextRevision := nextRevision + 1;
      epochs := epochs[id := nextRevision];
      ok := true;
    }

    method Remove(id: Identity)
      modifies this`sources, this`owners, this`revisions, this`discoveredAt
      ensures Value() == old(Value()).Unbound(id)
    {
      sources := sources - {id};
      owners := owners - {id};
      revisions := revisions - {id};
      discoveredAt := discoveredAt - {id};
    }

    method Register(source: Source) returns (error: Option<Error>)
      modifies this
      ensures (Value(), error) == Apply(rules, old(Value()), Event.Register(source))
    {
      var id := source.identity;
      if !rules.identityOk(id) {
        return Some(InvalidIdentity);
      }
      if id in sources || id in owners {
        return Some(AlreadyRegistered);
      }
      var ok := AssignRevision(id);
      if !ok {
        return Some(Exhausted);
      }
      discoveredAt := discoveredAt - {id};
      sources := sources[id := source];
      error := None;
    }

    method RegisterAttempt(id: Identity, owner: Owner, rootHolds: bool) returns (error: Option<Error>)
      modifies this
      ensures (Value(), error) == Apply(rules, old(Value()), Event.RegisterAttempt(id, owner, rootHolds))
    {
      if !rules.rooted {
        return Some(Unavailable);
      }
      if !rules.identityOk(id) {
        return Some(InvalidIdentity);
      }
      if !rules.Fits(id, owner) || !rootHolds {
        return Some(Unsafe);
      }
      if id in sources {
        return Some(AlreadyRegistered);
      }
      if id in owners {
        return if owners[id] == owner then None else Some(AlreadyRegistered);
      }
      var ok := AssignRevision(id);
      if !ok {
        return Some(Exhausted);
      }
      discoveredAt := discoveredAt - {id};
      owners := owners[id := owner];
      error := None;
    }

    method RegisterDiscoveredAttempt(id: Identity, owner: Owner, expectedEpoch: u64, rootHolds: bool) returns (error: Option<Error>)
      modifies this
      ensures (Value(), error) == Apply(rules, old(Value()), RegisterDiscovered(id, owner, expectedEpoch, rootHolds))
    {
      if !rules.identityOk(id) {
        return Some(InvalidIdentity);
      }
      if !rules.Fits(id, owner) {
        return Some(Unsafe);
      }
      if !rules.rooted {
        return Some(Unavailable);
      }
      if !rootHolds {
        return Some(Unsafe);
      }
      if Value().Epoch(id) != expectedEpoch {
        return Some(NotFound);
      }
      if id in sources {
        return Some(AlreadyRegistered);
      }
      if id in owners {
        return if owners[id] == owner then None else Some(AlreadyRegistered);
      }
      var ok := AssignRevision(id);
      if !ok {
        return Some(Exhausted);
      }
      discoveredAt := discoveredAt[id := expectedEpoch];
      owners := owners[id := owner];
      error := None;
    }

    method UnregisterAttempt(id: Identity, owner: Owner) returns (error: Option<Error>)
      modifies this
      ensures (Value(), error) == Apply(rules, old(Value()), Event.UnregisterAttempt(id, owner))
    {
      if !rules.identityOk(id) {
        return Some(InvalidIdentity);
      }
      if !rules.Fits(id, owner) {
        return Some(Unsafe);
      }
      if id in owners && owners[id] != owner {
        return None;
      }
      if id in sources && id !in owners {
        return Some(Unsafe);
      }
      var ok := AdvanceEpoch(id);
      if !ok {
        return Some(Exhausted);
      }
      Remove(id);
      error := None;
    }

    method Unregister(id: Identity) returns (error: Option<Error>)
      modifies this
      ensures (Value(), error) == Apply(rules, old(Value()), Event.Unregister(id))
    {
      if !rules.identityOk(id) {
        return Some(InvalidIdentity);
      }
      var ok := AdvanceEpoch(id);
      if !ok {
        return Some(Exhausted);
      }
      Remove(id);
      error := None;
    }

    method CaptureRegistration(id: Identity) returns (r: Result<(Captured, bool), Error>)
      ensures r == Capture(rules, Value(), id)
    {
      if !rules.identityOk(id) {
        return Err(InvalidIdentity);
      }
      if id !in revisions {
        return if id in sources || id in owners then Err(Unsafe) else Ok((Captured(id, 0, Value().Epoch(id)), false));
      }
      if revisions[id] == 0 || (id in sources) == (id in owners) {
        return Err(Unsafe);
      }
      r := Ok((Captured(id, revisions[id], Value().Epoch(id)), true));
    }

    method UnregisterRegistration(captured: Captured) returns (error: Option<Error>)
      modifies this
      ensures (Value(), error) == Apply(rules, old(Value()), Event.UnregisterRegistration(captured))
    {
      var id := captured.identity;
      if !rules.identityOk(id) {
        return Some(InvalidIdentity);
      }
      if Value().Epoch(id) != captured.epoch {
        return None;
      }
      var ok := AdvanceEpoch(id);
      if !ok {
        return Some(Exhausted);
      }
      var removeCaptured := captured.revision != 0 && id in revisions && revisions[id] == captured.revision;
      var removeStaleDiscovery := id in discoveredAt && discoveredAt[id] == captured.epoch;
      if removeCaptured || removeStaleDiscovery {
        Remove(id);
      }
      error := None;
    }
  }

  /** What is known of one identity: bound in at most one table, with a revision exactly when bound, discovered only under the current epoch. */
  predicate IdInv(r: Registry, id: Identity) {
    && !(id in r.sources && id in r.owners)
    && (id in r.revisions <==> r.Bound(id))
    && (id in r.revisions ==> 0 < r.revisions[id] <= r.next)
    && (id in r.epochs ==> 0 < r.epochs[id] <= r.next)
    && (id in r.discoveredAt ==> id in r.owners && r.discoveredAt[id] == r.Epoch(id))
  }

  ghost predicate Inv(r: Registry) {
    && (forall id: Identity :: IdInv(r, id))
    && (forall i, j :: i in r.revisions && j in r.revisions && r.revisions[i] == r.revisions[j] ==> i == j)
  }

  /** A binding is only made where there is none, and a discovered one never outlives an epoch. */
  predicate Permitted(r: Registry, c: Change) {
    match c
    case Nothing => true
    case BindSource(id, _) => !r.Bound(id)
    case BindOwner(id, _, _) => !r.Bound(id)
    case Advance(id, unbind) => unbind || id !in r.discoveredAt
  }

  lemma DecidePermitted(rules: Rules, r: Registry, e: Event)
    requires Inv(r)
    ensures Permitted(r, Decide(rules, r, e).0)
  {
    if e.UnregisterRegistration? {
      assert IdInv(r, e.captured.identity);
    }
  }

  lemma ChangeKeepsIdInv(r: Registry, c: Change, id: Identity)
    requires IdInv(r, id) && Permitted(r, c)
    ensures IdInv(After(r, c), id)
  {
  }

  lemma ChangeKeepsInv(r: Registry, c: Change)
    requires Inv(r) && Permitted(r, c)
    ensures Inv(After(r, c))
  {
    hide Permitted;
    forall id: Identity
      ensures IdInv(After(r, c), id)
    {
      hide IdInv, After;
      ChangeKeepsIdInv(r, c, id);
    }
    var t := After(r, c);
    forall i, j | i in t.revisions && j in t.revisions && t.revisions[i] == t.revisions[j]
      ensures i == j
    {
      assert IdInv(r, i) && IdInv(r, j);
    }
  }

  lemma InvKept(rules: Rules, r: Registry, e: Event)
    requires Inv(r)
    ensures Inv(Apply(rules, r, e).0)
  {
    hide Decide, After, Permitted, Inv;
    DecidePermitted(rules, r, e);
    ChangeKeepsInv(r, Decide(rules, r, e).0);
  }

  ghost predicate IsRun(rules: Rules, run: seq<Registry>, events: seq<Event>) {
    && |run| == |events| + 1
    && run[0] == EMPTY
    && forall i :: 0 <= i < |events| ==> run[i + 1] == Apply(rules, run[i], events[i]).0
  }

  /** Every run keeps the invariant. */
  lemma {:induction false} RunKeepsInv(rules: Rules, run: seq<Registry>, events: seq<Event>, i: nat)
    requires IsRun(rules, run, events) && i < |run|
    ensures Inv(run[i])
  {
    hide Decide, Apply;
    if i > 0 {
      RunKeepsInv(rules, run, events, i - 1);
      InvKept(rules, run[i - 1], events[i - 1]);
    }
  }

  /** The inconsistency that a capture guards against never occurs. */
  lemma CaptureIsConsistent(rules: Rules, run: seq<Registry>, events: seq<Event>, i: nat, id: Identity)
    requires IsRun(rules, run, events) && i < |run| && rules.identityOk(id)
    ensures Capture(rules, run[i], id).Ok?
    ensures IdInv(run[i], id)
    ensures var (captured, found) := Capture(rules, run[i], id).value;
            && (found <==> run[i].Bound(id)) && (found <==> captured.revision != 0)
            && captured.revision <= run[i].next && captured.epoch == run[i].Epoch(id)
  {
    RunKeepsInv(rules, run, events, i);
    assert IdInv(run[i], id);
  }

  /** On every run the bound identities are the disjoint union of sources and owners, and exactly those have a revision. */
  lemma BoundAreRevised(rules: Rules, run: seq<Registry>, events: seq<Event>, i: nat)
    requires IsRun(rules, run, events) && i < |run|
    ensures run[i].sources.Keys !! run[i].owners.Keys
    ensures run[i].sources.Keys + run[i].owners.Keys == run[i].revisions.Keys
  {
    RunKeepsInv(rules, run, events, i);
    var r := run[i];
    forall id: Identity
      ensures !(id in r.sources && id in r.owners) && (id in r.revisions <==> id in r.sources || id in r.owners)
    {
      assert IdInv(r, id);
    }
  }

  /** Revisions and epochs never go back. */
  lemma {:induction false} NumbersGrow(rules: Rules, run: seq<Registry>, events: seq<Event>, i: nat, j: nat, id: Identity)
    requires IsRun(rules, run, events) && i <= j < |run|
    ensures run[i].next <= run[j].next
    ensures run[i].Epoch(id) <= run[j].Epoch(id)
    decreases j - i
  {
    hide Decide, Inv, After;
    if i < j {
      NumbersGrow(rules, run, events, i, j - 1, id);
      RunKeepsInv(rules, run, events, j - 1);
      ChangeGrows(run[j - 1], Decide(rules, run[j - 1], events[j - 1]).0, id);
    }
  }

  lemma ChangeGrows(r: Registry, c: Change, id: Identity)
    requires Inv(r)
    ensures r.next <= After(r, c).next
    ensures r.Epoch(id) <= After(r, c).Epoch(id)
    ensures After(r, c).Epoch(id) != r.Epoch(id) <==> c.Advance? && c.id == id && r.next < MAX_U64
  {
    assert IdInv(r, id);
  }

  /** Event i advanced the epoch of id. */
  predicate AdvancesEpoch(rules: Rules, r: Registry, e: Event, id: Identity) {
    Apply(rules, r, e).0.Epoch(id) != r.Epoch(id)
  }

  /** Exactly a successful unregistration advances an epoch: it is the deletion's own, or finds the epoch it captured. */
  lemma UnregisterAdvances(rules: Rules, r: Registry, e: Event, id: Identity)
    requires Inv(r)
    ensures AdvancesEpoch(rules, r, e, id) <==>
              && rules.identityOk(id) && r.next < MAX_U64
              && (|| e == Unregister(id)
                  || (e.UnregisterAttempt? && e.identity == id && rules.Fits(id, e.owner)
                      && (if id in r.owners then r.owners[id] == e.owner else id !in r.sources))
                  || (e.UnregisterRegistration? && e.captured.identity == id && e.captured.epoch == r.Epoch(id)))
  {
    hide Decide, After, IdInv;
    assert IdInv(r, id);
    ChangeGrows(r, Decide(rules, r, e).0, id);
    WhoAdvances(rules, r, e, id);
  }

  lemma WhoAdvances(rules: Rules, r: Registry, e: Event, id: Identity)
    requires IdInv(r, id)
    ensures var c := Decide(rules, r, e).0;
            c.Advance? && c.id == id && r.next < MAX_U64 <==>
              && rules.identityOk(id) && r.next < MAX_U64
              && (|| e == Unregister(id)
                  || (e.UnregisterAttempt? && e.identity == id && rules.Fits(id, e.owner)
                      && (if id in r.owners then r.owners[id] == e.owner else id !in r.sources))
                  || (e.UnregisterRegistration? && e.captured.identity == id && e.captured.epoch == r.Epoch(id)))
  {
  }

  lemma LateScanRefused(rules: Rules, r: Registry, id: Identity, owner: Owner, epoch: u64, rootHolds: bool)
    requires epoch != r.Epoch(id)
    ensures Apply(rules, r, RegisterDiscovered(id, owner, epoch, rootHolds)).0 == r
    ensures Apply(rules, r, RegisterDiscovered(id, owner, epoch, rootHolds)).1.Some?
  {
  }

  /** A scan begun before an epoch-advancing unregister never publishes the owner it found, however much later it ends. */
  lemma StaleScanNeverPublishes(rules: Rules, run: seq<Registry>, events: seq<Event>, begun: nat, deleted: nat, ended: nat,
                                id: Identity, owner: Owner, rootHolds: bool)
    requires IsRun(rules, run, events) && begun <= deleted < ended < |events|
    requires AdvancesEpoch(rules, run[deleted], events[deleted], id)
    requires events[ended] == RegisterDiscovered(id, owner, run[begun].Epoch(id), rootHolds)
    ensures run[ended + 1] == run[ended] && Apply(rules, run[ended], events[ended]).1.Some?
  {
    hide Apply;
    NumbersGrow(rules, run, events, begun, deleted, id);
    NumbersGrow(rules, run, events, deleted, deleted + 1, id);
    NumbersGrow(rules, run, events, deleted + 1, ended, id);
    LateScanRefused(rules, run[ended], id, owner, run[begun].Epoch(id), rootHolds);
  }

  /** The bindings of id, whichever table holds them. */
  function Binding(r: Registry, id: Identity): (Option<Source>, Option<Owner>, Option<u64>) {
    (if id in r.sources then Some(r.sources[id]) else None,
     if id in r.owners then Some(r.owners[id]) else None,
     if id in r.revisions then Some(r.revisions[id]) else None)
  }

  /** Unregistering an owner removes no binding but that owner's own. */
  lemma OldOwnerRemovesNothingNewer(rules: Rules, r: Registry, id: Identity, owner: Owner, other: Identity)
    requires Inv(r)
    requires other != id || id in r.sources || (id in r.owners && r.owners[id] != owner)
    ensures Binding(Apply(rules, r, UnregisterAttempt(id, owner)).0, other) == Binding(r, other)
  {
    assert IdInv(r, id);
  }

  /** Event e directly registers id: by its own source, or by its owner's create. */
  predicate DirectlyRegisters(rules: Rules, r: Registry, e: Event, id: Identity) {
    && (e.Register? || e.RegisterAttempt?)
    && Binding(Apply(rules, r, e).0, id) != Binding(r, id)
  }

  /** A direct registration takes a revision of its own, which no other binding had before or takes later, and is never marked as discovered. */
  lemma {:induction false} DirectStaysDirect(rules: Rules, run: seq<Registry>, events: seq<Event>, k: nat, j: nat, id: Identity)
    requires IsRun(rules, run, events) && k < j < |run|
    requires DirectlyRegisters(rules, run[k], events[k], id)
    requires id in run[j].revisions && run[j].revisions[id] <= run[k].next + 1
    ensures id in run[j].revisions && run[j].revisions[id] == run[k].next + 1
    ensures id !in run[j].discoveredAt
    decreases j - k
  {
    hide Decide, Inv, After;
    var last := Decide(rules, run[j - 1], events[j - 1]).0;
    RunKeepsInv(rules, run, events, k);
    RunKeepsInv(rules, run, events, j - 1);
    if k + 1 == j {
      DirectChange(rules, run[k], events[k], id);
    } else {
      NumbersGrow(rules, run, events, k + 1, j - 1, id);
      DirectChange(rules, run[k], events[k], id);
      OldRevisionsStay(run[j - 1], last, id);
      DecidePermitted(rules, run[j - 1], events[j - 1]);
      DirectStaysDirect(rules, run, events, k, j - 1, id);
    }
  }

  lemma DirectChange(rules: Rules, r: Registry, e: Event, id: Identity)
    requires Inv(r) && DirectlyRegisters(rules, r, e, id)
    ensures var after := After(r, Decide(rules, r, e).0);
            && id in after.revisions && after.revisions[id] == r.next + 1 == after.next
            && id !in after.discoveredAt
  {
    assert IdInv(r, id);
  }

  /** A binding that keeps its revision over a change keeps everything else too. */
  lemma OldRevisionsStay(r: Registry, c: Change, id: Identity)
    requires Inv(r)
    requires id in After(r, c).revisions && After(r, c).revisions[id] <= r.next
    ensures id in r.revisions && r.revisions[id] == After(r, c).revisions[id]
    ensures id !in r.discoveredAt ==> id !in After(r, c).discoveredAt
    ensures Binding(After(r, c), id).2 == Binding(r, id).2
  {
    assert IdInv(r, id);
  }

  lemma UnrelatedCaptureRemovesNothing(rules: Rules, r: Registry, captured: Captured)
    requires captured.identity in r.revisions && r.revisions[captured.identity] != captured.revision
    requires captured.identity !in r.discoveredAt
    ensures Binding(Apply(rules, r, UnregisterRegistration(captured)).0, captured.identity) == Binding(r, captured.identity)
  {
  }

  /**
   A deletion that captured its binding at step i never removes a registration
   made directly after that: while the binding of step k is still in place, the
   unregistration leaves it there.
   */
  lemma CapturedRemovesNothingNewer(rules: Rules, run: seq<Registry>, events: seq<Event>, i: nat, k: nat, j: nat, id: Identity)
    requires IsRun(rules, run, events) && i <= k < j < |events|
    requires rules.identityOk(id)
    requires DirectlyRegisters(rules, run[k], events[k], id)
    requires id in run[j].revisions && run[j].revisions[id] == run[k].next + 1
    requires Capture(rules, run[i], id).Ok? && events[j] == UnregisterRegistration(Capture(rules, run[i], id).value.0)
    ensures Binding(run[j + 1], id) == Binding(run[j], id)
  {
    hide Decide, Inv, Binding;
    DirectStaysDirect(rules, run, events, k, j, id);
    CaptureIsConsistent(rules, run, events, i, id);
    NumbersGrow(rules, run, events, i, k, id);
    UnrelatedCaptureRemovesNothing(rules, run[j], Capture(rules, run[i], id).value.0);
  }

  /** An accepted registration leaves the identity bound to exactly what was given, and to nothing else; a refused one changes nothing. */
  lemma AcceptedIsBound(rules: Rules, r: Registry, e: Event)
    requires Inv(r)
    ensures var (t, error) := Apply(rules, r, e);
            && (error.Some? ==> t == r)
            && (error.None? ==>
                  match e
                  case Register(source) => Binding(t, source.identity).0 == Some(source) && Binding(t, source.identity).1.None?
                  case RegisterAttempt(id, owner, _) => Binding(t, id).0.None? && Binding(t, id).1 == Some(owner)
                  case RegisterDiscovered(id, owner, _, _) => Binding(t, id).0.None? && Binding(t, id).1 == Some(owner)
                  case _ => true)
  {
    var id := match e
      case Register(source) => source.identity
      case RegisterAttempt(id, _, _) => id
      case RegisterDiscovered(id, _, _, _) => id
      case UnregisterAttempt(id, _) => id
      case Unregister(id) => id
      case UnregisterRegistration(captured) => captured.identity;
    assert IdInv(r, id);
  }

  /** Of a fresh identity every registration is accepted that is well formed, safe and, after a scan, not too late. */
  lemma FreshIsAccepted(rules: Rules, r: Registry, e: Event, id: Identity)
    requires Inv(r) && !r.Bound(id) && r.next < MAX_U64
    ensures Apply(rules, r, e).0.Bound(id) <==>
              && rules.identityOk(id)
              && (|| (e.Register? && e.source.identity == id)
                  || (e.RegisterAttempt? && e.identity == id && rules.rooted && rules.Fits(id, e.owner) && e.rootHolds)
                  || (e.RegisterDiscovered? && e.identity == id && rules.rooted && rules.Fits(id, e.owner) && e.rootHolds
                      && e.epoch == r.Epoch(id)))
  {
  }

  /** Exactly what unbinds an identity: its deletion, its own owner's deletion, or one that captured the binding or finds it discovered under the epoch it captured. */
  lemma WhatUnbinds(rules: Rules, r: Registry, e: Event, id: Identity)
    requires Inv(r) && r.Bound(id)
    ensures !Apply(rules, r, e).0.Bound(id) <==>
              && rules.identityOk(id) && r.next < MAX_U64
              && (|| e == Unregister(id)
                  || (e.UnregisterAttempt? && e.identity == id && rules.Fits(id, e.owner) && Binding(r, id).1 == Some(e.owner))
                  || (e.UnregisterRegistration? && e.captured.identity == id && e.captured.epoch == r.Epoch(id)
                      && (Binding(r, id).2 == Some(e.captured.revision) || id in r.discoveredAt)))
  {
    assert IdInv(r, id);
  }

  /**
   A deletion that captured a binding at step i and unregisters at step j leaves
   that binding in place exactly when an unregistration in between moved the
   epoch on without removing it, or the numbers are used up. Under the epoch it
   captured it leaves the identity free, unless a direct registration came since.
   */
  lemma CapturedIsRemoved(rules: Rules, run: seq<Registry>, events: seq<Event>, i: nat, j: nat, id: Identity)
    requires IsRun(rules, run, events) && i <= j < |run| && rules.identityOk(id)
    ensures Capture(rules, run[i], id).Ok?
    ensures var (captured, found) := Capture(rules, run[i], id).value;
            var t := Apply(rules, run[j], UnregisterRegistration(captured)).0;
            && (found ==>
                  (Binding(t, id).2 == Some(captured.revision) <==>
                     Binding(run[j], id).2 == Some(captured.revision) && (run[j].Epoch(id) != captured.epoch || run[j].next == MAX_U64)))
            && (run[j].Epoch(id) == captured.epoch && run[j].next < MAX_U64 ==>
                  (t.Bound(id) <==>
                     run[j].Bound(id) && Binding(run[j], id).2 != Some(captured.revision) && id !in run[j].discoveredAt))
            && (i == j && run[j].next < MAX_U64 ==> !t.Bound(id))
  {
    CaptureIsConsistent(rules, run, events, i, id);
    RunKeepsInv(rules, run, events, j);
    var captured := Capture(rules, run[i], id).value.0;
    assert IdInv(run[i], id) && IdInv(run[j], id);
    hide Inv, Capture;
    CapturedGoes(rules, run[j], captured);
  }

  /**
   The run in which a deletion leaves what it captured: an earlier deletion
   captured before the binding was made and unregisters first. It rightly spares
   the newer binding but moves the epoch on, and the second deletion gives way.
   */
  lemma OverlappingDeletionsKeepIt(rules: Rules, id: Identity, owner: Owner)
    returns (run: seq<Registry>, events: seq<Event>, captured: Captured)
    requires rules.identityOk(id) && rules.rooted && rules.Fits(id, owner)
    ensures IsRun(rules, run, events) && |events| == 3
    ensures Capture(rules, run[1], id) == Ok((captured, true)) && events[2] == UnregisterRegistration(captured)
    ensures Binding(run[3], id).1 == Some(owner) && Binding(run[3], id).2 == Some(captured.revision)
  {
    var early := UnregisterRegistration(Captured(id, 0, 0));
    var bound := Apply(rules, EMPTY, RegisterAttempt(id, owner, true)).0;
    captured := Captured(id, 1, 0);
    var passed := Apply(rules, bound, early).0;
    events := [RegisterAttempt(id, owner, true), early, UnregisterRegistration(captured)];
    run := [EMPTY, bound, passed, Apply(rules, passed, events[2]).0];
    assert Capture(rules, EMPTY, id) == Ok((Captured(id, 0, 0), false));
  }

  lemma CapturedGoes(rules: Rules, r: Registry, captured: Captured)
    requires IdInv(r, captured.identity) && rules.identityOk(captured.identity)
    ensures var id := captured.identity;
            var t := Apply(rules, r, UnregisterRegistration(captured)).0;
            if captured.epoch != r.Epoch(id) || r.next == MAX_U64 then t == r
            else
              && (t.Bound(id) <==> r.Bound(id) && Binding(r, id).2 != Some(captured.revision) && id !in r.discoveredAt)
              && (t.Bound(id) ==> Binding(t, id) == Binding(r, id)) && (!t.Bound(id) ==> id !in t.revisions)
  {
  }
}
