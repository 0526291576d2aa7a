/** Receipts for acquired host resources, their inverses, and the one order in which they are acquired. */
module Ownership {
  import opened Results
  import opened Operations

  datatype Provider = Linux | CgroupV2

  datatype Kind =
    | SandboxCgroup | AttemptCgroup | KeeperCgroup | KeeperProcess | UtsNamespace | IpcNamespace | NetworkNamespace
    | InitProcess | PidNamespace | MountNamespace | RootfsMount | StartGate | StreamSet

  datatype Action = RemoveCgroup | StopProcess | UnmountRoot | CloseGate | CloseStreams | Unsupported(name: string)

  datatype OwnerKey = OwnerKey(operation: OpId, target: Target, generation: nat, token: string)

  datatype Receipt = Receipt(
    provider: Provider, kind: Kind, localId: string, owner: OwnerKey, evidence: string,
    attributes: map<string, string>, adopted: bool)

  /** Proof that one adopted resource was seen absent, obtained by a delete operation. */
  datatype Release = Release(cleanup: OpId, resource: Receipt, evidence: string)

  /** A persisted inverse; its metadata is the encoded receipt. */
  datatype Descriptor = Descriptor(name: string, action: Action, target: string, metadata: string)

  /** The token derivation, the character rules of identifiers, digests and attributes, and the encoding of receipts. */
  datatype Rules = Rules(
    ownerOk: OwnerKey -> bool, textOk: Receipt -> bool,
    encode: Receipt -> string, decode: string -> Option<Receipt>)
  {
    /** What is asked of the encoding: it reads back what it wrote. */
    ghost predicate ReadsBack() {
      forall r: Receipt :: decode(encode(r)) == Some(r)
    }

    predicate Valid(r: Receipt) {
      && (r.provider == CgroupV2 <==> r.kind == SandboxCgroup || r.kind == AttemptCgroup || r.kind == KeeperCgroup)
      && ownerOk(r.owner) && textOk(r)
    }

    predicate ReleaseValid(r: Release) {
      Valid(r.resource) && r.resource.adopted
    }
  }

  function Adopted(r: Receipt): Receipt { r.(adopted := true) }

  /** A kind's spelling, followed by the local ID. */
  function Name(kind: Kind, localId: string): string {
    KindName(kind) + ":" + localId
  }

  function KindName(kind: Kind): string {
    match kind
    case SandboxCgroup => "sandbox_cgroup"
    case AttemptCgroup => "attempt_cgroup"
    case KeeperCgroup => "keeper_cgroup"
    case KeeperProcess => "keeper_process"
    case UtsNamespace => "uts_namespace"
    case IpcNamespace => "ipc_namespace"
    case NetworkNamespace => "network_namespace"
    case InitProcess => "init_process"
    case PidNamespace => "pid_namespace"
    case MountNamespace => "mount_namespace"
    case RootfsMount => "rootfs_mount"
    case StartGate => "start_gate"
    case StreamSet => "streams"
  }

  /** An action can only undo the kinds its provider implements it for. */
  predicate ValidFor(a: Action, p: Provider, k: Kind) {
    match a
    case RemoveCgroup => p == CgroupV2 && (k == SandboxCgroup || k == AttemptCgroup || k == KeeperCgroup)
    case StopProcess => p == Linux && (k == KeeperProcess || k == InitProcess)
    case UnmountRoot => p == Linux && k == RootfsMount
    case CloseGate => p == Linux && k == StartGate
    case CloseStreams => p == Linux && k == StreamSet
    case Unsupported(_) => false
  }

  /** The inverse of a kind; namespaces end with the process that holds them. */
  function InverseAction(k: Kind): Option<Action> {
    match k
    case SandboxCgroup => Some(RemoveCgroup)
    case KeeperCgroup => Some(RemoveCgroup)
    case AttemptCgroup => Some(RemoveCgroup)
    case KeeperProcess => Some(StopProcess)
    case InitProcess => Some(StopProcess)
    case RootfsMount => Some(UnmountRoot)
    case StartGate => Some(CloseGate)
    case StreamSet => Some(CloseStreams)
    case _ => None
  }

  function InverseDescriptor(rules: Rules, r: Receipt, a: Action): Option<Descriptor> {
    if !rules.Valid(r) || r.adopted || !ValidFor(a, r.provider, r.kind) then None
    else Some(Descriptor(Name(r.kind, r.localId), a, r.owner.token, rules.encode(r)))
  }

  function ReceiptFromDescriptor(rules: Rules, d: Descriptor): Option<(Receipt, Action)> {
    if d.action.Unsupported? then None
    else
      var decoded := rules.decode(d.metadata);
      if decoded.None? || !rules.Valid(decoded.value) then None
      else
        var expected := InverseDescriptor(rules, decoded.value, d.action);
        if expected.None? || d.name != expected.value.name || d.target != expected.value.target then None
        else Some((decoded.value, d.action))
  }

  /** A descriptor decodes back to the receipt and action it was built from. */
  lemma DescriptorRoundTrip(rules: Rules, r: Receipt, a: Action)
    requires rules.ReadsBack() && InverseDescriptor(rules, r, a).Some?
    ensures ReceiptFromDescriptor(rules, InverseDescriptor(rules, r, a).value) == Some((r, a))
  {
    assert rules.decode(rules.encode(r)) == Some(r);
  }

  /** Whatever decodes is the descriptor of what it decodes to, up to how the receipt was written down. */
  lemma DecodedIsInverse(rules: Rules, d: Descriptor, r: Receipt, a: Action)
    ensures ReceiptFromDescriptor(rules, d) == Some((r, a)) <==>
              && rules.decode(d.metadata) == Some(r)
              && InverseDescriptor(rules, r, a).Some?
              && d == InverseDescriptor(rules, r, a).value.(metadata := d.metadata)
  {
  }

  /** An action undoes a kind exactly when it is that kind's inverse: nothing that can be undone is left without one. */
  lemma InverseIsTheAction(k: Kind, a: Action)
    ensures InverseAction(k) == Some(a) <==> exists p :: ValidFor(a, p, k)
  {
    var p := if a.RemoveCgroup? then CgroupV2 else Linux;
    if InverseAction(k) == Some(a) {
      assert ValidFor(a, p, k);
    }
  }

  /** A valid receipt has an inverse exactly when some action can undo it, and then gets the descriptor for it. */
  lemma InverseApplies(rules: Rules, r: Receipt)
    requires rules.Valid(r) && !r.adopted
    ensures InverseAction(r.kind).Some? <==> exists a :: ValidFor(a, r.provider, r.kind)
    ensures InverseAction(r.kind).Some? ==> InverseDescriptor(rules, r, InverseAction(r.kind).value).Some?
  {
    if InverseAction(r.kind).Some? {
      assert ValidFor(InverseAction(r.kind).value, r.provider, r.kind);
    }
    if a :| ValidFor(a, r.provider, r.kind) {
      InverseIsTheAction(r.kind, a);
    }
  }

  /** Three letters tell the spellings apart. */
  lemma SpellingsDiffer(k: Kind, l: Kind)
    ensures |KindName(k)| >= 7
    ensures var s, t := KindName(k) + ":", KindName(l) + ":";
            s[0] == t[0] && s[4] == t[4] && s[7] == t[7] ==> k == l
  {
  }

  /** A name tells the kind and the local identifier apart. */
  lemma NameDecides(k: Kind, x: string, l: Kind, y: string)
    requires Name(k, x) == Name(l, y)
    ensures k == l && x == y
  {
    SpellingsDiffer(k, l);
    SpellingsDiffer(l, k);
    hide KindName;
    var name, s, t := Name(k, x), KindName(k) + ":", KindName(l) + ":";
    assert name == s + x && name == t + y;
    assert s[0] == name[0] == t[0] && s[4] == name[4] == t[4] && s[7] == name[7] == t[7];
    assert name[|s|..] == x && name[|t|..] == y;
  }

  /** The complete acquisition order of a target. */
  function Profile(target: TargetKind): seq<Kind> {
    match target
    case TargetSandbox => [SandboxCgroup, KeeperCgroup, KeeperProcess, UtsNamespace, IpcNamespace, NetworkNamespace]
    case _ => [AttemptCgroup, StartGate, StreamSet, InitProcess, PidNamespace, MountNamespace, RootfsMount]
  }

  /** Receipts that are the first ones of a profile, valid and of one owner. */
  predicate IsPrefix(rules: Rules, target: TargetKind, rs: seq<Receipt>) {
    && |rs| <= |Profile(target)|
    && (forall i :: 0 <= i < |rs| ==> rules.Valid(rs[i]) && rs[i].kind == Profile(target)[i])
    && (forall i, j :: 0 <= i < j < |rs| ==> rs[i].owner == rs[j].owner)
  }

  predicate IsProfile(rules: Rules, target: TargetKind, rs: seq<Receipt>) {
    IsPrefix(rules, target, rs) && |rs| == |Profile(target)|
  }

  /** Compares a journal with its profile, carrying the owner of the first receipt. */
  method ValidateJournal(rules: Rules, target: TargetKind, rs: seq<Receipt>, complete: bool) returns (ok: bool)
    ensures ok <==> if complete then IsProfile(rules, target, rs) else IsPrefix(rules, target, rs)
    ensures ok ==> (forall i :: 0 <= i < |rs| ==> i < |Profile(target)| && rs[i].kind == Profile(target)[i] && rules.Valid(rs[i]))
                   && forall i, j :: 0 <= i < |rs| && 0 <= j < |rs| ==> rs[i].owner == rs[j].owner
    ensures ok && complete ==> |rs| == |Profile(target)|
  {
    hide Rules.Valid;
    var expected := Profile(target);
    hide Profile;
    if |rs| > |expected| || (complete && |rs| != |expected|) {
      return false;
    }
    if rs == [] {
      return true;
    }
    var owner := rs[0].owner;
    for i := 0 to |rs|
      invariant forall k :: 0 <= k < i ==> rules.Valid(rs[k]) && rs[k].kind == expected[k] && rs[k].owner == owner
    {
      if !rules.Valid(rs[i]) || rs[i].kind != expected[i] || rs[i].owner != owner {
        return false;
      }
    }
    return true;
  }

  /** No kind occurs twice in a profile, so a kind finds its receipt. */
  lemma ProfileKindsDiffer(target: TargetKind, i: nat, j: nat)
    requires i < j < |Profile(target)|
    ensures Profile(target)[i] != Profile(target)[j]
  {
  }
}
