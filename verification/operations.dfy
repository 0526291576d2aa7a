/** Durable operations: their binding, stages and the decision a retry gets. */
module Operations {
  import opened Results

  type OpId = string

  datatype OpType = Create | Start | State | Kill | Stop | Delete

  datatype TargetKind = TargetSandbox | TargetContainer | TargetAttempt

  datatype Target = Target(kind: TargetKind, id: string)

  datatype Stage =
    | Validate | PersistIntent | CheckPreconditions | HostPreflight | PrepareCgroup | PrepareStartGate | PrepareStreams
    | CreateProcess | PrepareNamespaces | JoinNamespaces | PrepareRootfs | AttachCgroup | ReleaseStartGate | SignalProcess
    | ObserveProcess | Teardown | Transition | PersistState | Rollback | PersistResult | Complete
  {
    /** The place of a stage in the bounded order. */
    function Rank(): nat {
      match this
      case Validate => 0
      case PersistIntent => 1
      case CheckPreconditions => 2
      case HostPreflight => 3
      case PrepareCgroup => 4
      case PrepareStartGate => 5
      case PrepareStreams => 6
      case CreateProcess => 7
      case PrepareNamespaces => 8
      case JoinNamespaces => 9
      case PrepareRootfs => 10
      case AttachCgroup => 11
      case ReleaseStartGate => 12
      case SignalProcess => 13
      case ObserveProcess => 14
      case Teardown => 15
      case Transition => 16
      case PersistState => 17
      case Rollback => 18
      case PersistResult => 19
      case Complete => 20
    }

    /** Stages a provider may checkpoint. */
    predicate IsCheckpoint() {
      !Validate? && !PersistIntent? && !Complete?
    }
  }

  datatype HostProfile = AbstractM1 | LinuxM2

  datatype OpState = Running | Succeeded | Failed

  /** What an operation ID is bound to for good. */
  datatype Binding = Binding(id: OpId, kind: OpType, target: Target, fingerprint: string)

  datatype Resolution = New | Resume | Replay

  /** The decision for a request, given the operation its ID already names. */
  function Resolve(existing: Option<(Binding, OpState)>, requested: Binding): Option<Resolution> {
    if existing.None? then Some(New)
    else if existing.value.0 != requested then None
    else Some(if existing.value.1 == Running then Resume else Replay)
  }
}
