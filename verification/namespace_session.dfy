/**
 Joining and restoring namespaces on one dedicated OS thread. The kernel may
 fail a join after it took effect, or report a success that did not; only what
 is read back from an open descriptor is believed.
 */
module NamespaceSession {
  import opened Results

  datatype Ns = Uts | Ipc | Net | Pid | Mnt

  type Inode = nat

  /** A descriptor: a new number for every open, so closing one can be counted. */
  type Descriptor = nat

  /** A captured namespace and the descriptor that keeps it. */
  datatype Original = Original(fd: Descriptor, inode: Inode)

  datatype Namespace = Namespace(kind: Ns, inode: Inode)

  /** The thread as the kernel sees it. */
  class Thread {
    /** The namespaces the thread is really in. */
    var current: map<Ns, Inode>

    /** What each descriptor refers to, and how often it has been closed. */
    var files: seq<Namespace>
    var closes: seq<nat>

    /** Whether it shares its root and working directory with other threads; then it cannot join a mount namespace. */
    var sharesFs: bool

    /** Whether every call succeeds and does what it says. No call changes it. */
    const reliable: bool

    predicate Valid()
      reads this
    {
      (forall t: Ns :: t in current) && |closes| == |files|
    }

    constructor (current: map<Ns, Inode>, reliable: bool)
      requires forall t: Ns :: t in current
      ensures Valid() && this.current == current && files == [] && closes == [] && sharesFs && this.reliable == reliable
    {
      this.current, this.reliable, files, closes, sharesFs := current, reliable, [], [], true;
    }

    /** Opens the thread's entry for one kind of namespace. */
    method Open(t: Ns) returns (fd: Option<Descriptor>)
      requires Valid()
      modifies this`files, this`closes
      ensures Valid()
      ensures fd.None? ==> files == old(files) && closes == old(closes)
      ensures fd.Some? ==>
                && fd.value == |old(files)|
                && files == old(files) + [Namespace(t, current[t])] && closes == old(closes) + [0]
      ensures reliable ==> fd.Some?
    {
      var fails: bool := *;
      if fails && !reliable {
        return None;
      }
      fd := Some(|files|);
      files, closes := files + [Namespace(t, current[t])], closes + [0];
    }

    /** What a descriptor claims to refer to; only a validation makes sure. */
    method Inspect(fd: Descriptor) returns (inode: Option<Inode>)
      requires fd < |files|
      ensures reliable ==> inode == Some(files[fd].inode)
    {
      inode := *;
      inode := if reliable then Some(files[fd].inode) else inode;
    }

    /** Checks a descriptor against an expected kind and inode; it may fail for other reasons too. */
    method Validate(fd: Descriptor, t: Ns, inode: Inode) returns (ok: bool)
      requires fd < |files|
      ensures ok ==> files[fd] == Namespace(t, inode)
      ensures reliable ==> ok == (files[fd] == Namespace(t, inode))
    {
      var fails: bool := *;
      ok := (reliable || !fails) && files[fd] == Namespace(t, inode);
    }

    /** Asks for another namespace of one kind. Whatever it reports, an unreliable thread may be anywhere afterwards, in this kind. */
    method Setns(t: Ns, to: Inode) returns (ok: bool)
      requires Valid()
      modifies this`current
      ensures Valid()
      ensures forall u: Ns :: u != t ==> current[u] == old(current[u])
      ensures reliable ==> ok == !(t == Mnt && sharesFs) && current[t] == if ok then to else old(current[t])
    {
      var success: bool, reached: Inode := *, *;
      if reliable {
        ok := !(t == Mnt && sharesFs);
        reached := if ok then to else current[t];
      } else {
        ok := success;
      }
      current := current[t := reached];
    }

    /** New namespaces of the given kinds, and a filesystem context of its own if asked for, or nothing. */
    method Unshare(kinds: set<Ns>, fs: bool) returns (ok: bool)
      requires Valid()
      modifies this`current, this`sharesFs
      ensures Valid() && sharesFs == (old(sharesFs) && !(ok && fs))
      ensures forall u: Ns :: u !in kinds || !ok ==> current[u] == old(current[u])
      ensures reliable ==> ok
    {
      var fails: bool, made: Inode := *, *;
      if fails && !reliable {
        return false;
      }
      current := map u: Ns | u in current :: if u in kinds then made else current[u];
      sharesFs := sharesFs && !fs;
      ok := true;
    }

    method Close(fd: Descriptor) returns (ok: bool)
      requires Valid() && fd < |files|
      modifies this`closes
      ensures Valid()
      ensures closes == old(closes)[fd := old(closes)[fd] + 1]
      ensures reliable ==> ok
    {
      closes := closes[fd := closes[fd] + 1];
      var fails: bool := *;
      ok := reliable || !fails;
    }

    /** Reads the thread's own entry of one kind and compares its inode. */
    method Probe(t: Ns, inode: Inode) returns (ok: bool)
      requires Valid()
      modifies this`files, this`closes
      ensures Valid() && old(files) <= files && old(closes) <= closes
      ensures forall d :: |old(closes)| <= d < |closes| ==> closes[d] == 1
      ensures ok ==> current[t] == inode
      ensures reliable ==> ok == (current[t] == inode)
    {
      var fd := Open(t);
      if fd.None? {
        return false;
      }
      ok := Validate(fd.value, t, inode);
      var _ := Close(fd.value);
    }
  }

  /** The capability to change the namespaces of one locked thread; tainted once the thread may differ from what it was. */
  class Helper {
    const thread: Thread
    var active: bool
    var tainted: bool
    var fsPrivate: bool

    /** The kinds this helper has unshared, for the statement only. */
    ghost var unshared: set<Ns>

    ghost predicate Valid()
      reads this, thread
    {
      thread.Valid() && (unshared != {} ==> tainted) && (fsPrivate ==> !thread.sharesFs)
    }

    constructor (thread: Thread)
      requires thread.Valid()
      ensures Valid() && this.thread == thread && active && !tainted && !fsPrivate && unshared == {}
    {
      this.thread := thread;
      active, tainted, fsPrivate, unshared := true, false, false, {};
    }

    /** A capability still in force, used by its own thread on a reliable kernel. */
    predicate Works()
      reads this
    {
      active && thread.reliable
    }

    /** An expired capability, or a call from another thread. */
    method CheckThread() returns (ok: bool)
      ensures ok ==> active
      ensures Works() ==> ok
    {
      var same: bool := *;
      ok := active && (same || thread.reliable);
    }

    method Unshare(kinds: set<Ns>, fs: bool) returns (ok: bool)
      requires Valid()
      modifies this`tainted, this`unshared, thread`current, thread`sharesFs
      ensures thread.sharesFs == (old(thread.sharesFs) && !(ok && fs))
      ensures Valid() && (old(tainted) ==> tainted)
      ensures if ok then tainted && unshared == old(unshared) + kinds else tainted == old(tainted) && unshared == old(unshared)
      ensures forall u: Ns :: u !in kinds || !ok ==> thread.current[u] == old(thread.current[u])
      ensures Works() ==> ok
    {
      ok := CheckThread();
      if !ok {
        return;
      }
      ok := thread.Unshare(kinds, fs);
      if ok {
        tainted, unshared := true, unshared + kinds;
      }
    }

    method Setns(t: Ns, to: Inode) returns (ok: bool)
      requires Valid()
      modifies this`tainted, thread`current
      ensures Valid() && tainted == (old(tainted) || ok)
      ensures forall u: Ns :: u != t ==> thread.current[u] == old(thread.current[u])
      ensures Works() && (t == Mnt ==> !thread.sharesFs) ==> ok && thread.current[t] == to
    {
      ok := CheckThread();
      if !ok {
        return;
      }
      ok := thread.Setns(t, to);
      if ok {
        tainted := true;
      }
    }

    /** The filesystem context is not shared with other threads before a mount namespace is joined. */
    method EnsurePrivateFS() returns (ok: bool)
      requires Valid()
      modifies this`tainted, this`unshared, this`fsPrivate, thread`current, thread`sharesFs
      ensures Valid() && (old(tainted) ==> tainted) && (tainted == old(tainted) || ok)
      ensures unshared == old(unshared)
      ensures forall u: Ns :: thread.current[u] == old(thread.current[u])
      ensures ok ==> fsPrivate && !thread.sharesFs
      ensures thread.sharesFs ==> old(thread.sharesFs)
      ensures Works() ==> ok
    {
      ok := CheckThread();
      if !ok || fsPrivate {
        return;
      }
      ok := Unshare({}, true);
      if ok {
        fsPrivate := true;
      }
    }
  }

  /** The joined stack holds captured kinds, each once, and only those have a target. */
  predicate StackOk(captured: set<Ns>, joined: seq<Ns>, targets: map<Ns, Inode>) {
    && (forall t :: t in joined ==> t in captured)
    && (forall i, j :: 0 <= i < j < |joined| ==> joined[i] != joined[j])
    && (forall t :: t in targets ==> t in joined)
  }

  /** A captured kind that is not done keeps the descriptor open. */
  predicate KeepsOpen(captured: map<Ns, Original>, done: set<Ns>, d: Descriptor) {
    exists t :: t in captured && t !in done && captured[t].fd == d
  }

  /**
   Captured descriptors refer to what was captured, and of all descriptors
   opened from start on each has been closed exactly once, except those that a
   captured kind keeps open.
   */
  predicate Kept(captured: map<Ns, Original>, done: set<Ns>, start: nat, files: seq<Namespace>, closes: seq<nat>) {
    && start <= |closes| == |files|
    && (forall t :: t in captured ==>
          start <= captured[t].fd < |files| && files[captured[t].fd] == Namespace(t, captured[t].inode))
    && (forall d: Descriptor :: start <= d < |closes| ==> closes[d] == if KeepsOpen(captured, done, d) then 0 else 1)
  }

  /** A captured kind that is not on the joined stack, and that the helper has not unshared, is where it was. */
  predicate InPlace(captured: map<Ns, Original>, joined: seq<Ns>, unshared: set<Ns>, current: map<Ns, Inode>)
    requires forall t: Ns :: t in current
  {
    forall t :: t in captured && t !in joined && t !in unshared ==> current[t] == captured[t].inode
  }

  /** Descriptors opened and closed again in between change nothing. */
  lemma KeptLater(captured: map<Ns, Original>, done: set<Ns>, start: nat, f: seq<Namespace>, c: seq<nat>, f': seq<Namespace>, c': seq<nat>)
    requires Kept(captured, done, start, f, c) && f <= f' && c <= c' && |f'| == |c'|
    requires forall d :: |c| <= d < |c'| ==> c'[d] == 1
    ensures Kept(captured, done, start, f', c')
  {
    forall d: Descriptor | start <= d < |c'|
      ensures c'[d] == if KeepsOpen(captured, done, d) then 0 else 1
    {
      if d < |c| {
        assert c'[d] == c[d];
      }
    }
  }

  /** Distinct kinds have distinct descriptors, so closing one of them closes no other. */
  lemma KeptClose(captured: map<Ns, Original>, done: set<Ns>, start: nat, f: seq<Namespace>, c: seq<nat>, t: Ns)
    requires Kept(captured, done, start, f, c) && t in captured && t !in done
    ensures captured[t].fd < |f| == |c|
    ensures Kept(captured, done + {t}, start, f, c[captured[t].fd := c[captured[t].fd] + 1])
  {
    assert KeepsOpen(captured, done, captured[t].fd);
    forall d: Descriptor | start <= d < |c|
      ensures KeepsOpen(captured, done + {t}, d) <==> KeepsOpen(captured, done, d) && d != captured[t].fd
    {
      if KeepsOpen(captured, done, d) && d != captured[t].fd {
        var u :| u in captured && u !in done && captured[u].fd == d;
        assert u !in done + {t};
      }
    }
  }

  lemma AllClosed(captured: map<Ns, Original>, done: set<Ns>, start: nat, f: seq<Namespace>, c: seq<nat>)
    requires Kept(captured, done, start, f, c) && captured - done == map[]
    ensures Kept(captured, captured.Keys, start, f, c)
  {
    assert forall t :: t in captured && t !in done ==> t in captured - done;
  }

  lemma StackPush(captured: set<Ns>, joined: seq<Ns>, targets: map<Ns, Inode>, t: Ns)
    requires StackOk(captured, joined, targets) && t in captured && t !in joined
    ensures StackOk(captured, joined + [t], targets)
  {
  }

  lemma StackWider(captured: set<Ns>, more: set<Ns>, joined: seq<Ns>, targets: map<Ns, Inode>)
    requires StackOk(captured, joined, targets) && captured <= more
    ensures StackOk(more, joined, targets)
  {
  }

  lemma TargetOfJoined(captured: set<Ns>, joined: seq<Ns>, targets: map<Ns, Inode>, t: Ns, inode: Inode)
    requires StackOk(captured, joined, targets) && t in joined
    ensures StackOk(captured, joined, targets[t := inode])
  {
  }

  /** Removing one entry from the stack removes that kind and no other. */
  lemma StackRemove(captured: set<Ns>, joined: seq<Ns>, targets: map<Ns, Inode>, index: nat)
    requires StackOk(captured, joined, targets) && index < |joined|
    ensures var rest := joined[..index] + joined[index + 1..];
            && (forall u :: u in rest <==> u in joined && u != joined[index])
            && StackOk(captured, rest, targets - {joined[index]})
  {
    assert joined == joined[..index] + [joined[index]] + joined[index + 1..];
  }

  /** One capture, join and restore of namespaces on a helper's thread. */
  class Session {
    const helper: Helper
    const thread: Thread
    var originals: map<Ns, Original>
    var targets: map<Ns, Inode>
    var joined: seq<Ns>
    var closed: bool

    /** Everything captured when the session began, and the first descriptor it accounts for, for the statement only. */
    ghost var captured: map<Ns, Original>
    ghost const start: nat

    ghost predicate Valid()
      reads this, helper, thread
    {
      && thread == helper.thread && helper.Valid()
      && originals == (if closed then map[] else captured)
      && StackOk(captured.Keys, joined, targets)
      && Kept(captured, if closed then captured.Keys else {}, start, thread.files, thread.closes)
      && InPlace(captured, joined, helper.unshared, thread.current)
      && (Mnt in joined ==> !thread.sharesFs)
    }

    constructor (helper: Helper, ghost start: nat)
      ensures this.helper == helper && thread == helper.thread && this.start == start && captured == map[] && originals == map[]
      ensures targets == map[] && joined == [] && !closed
    {
      this.helper, thread, this.start := helper, helper.thread, start;
      originals, targets, joined, closed, captured := map[], map[], [], false, map[];
    }

    /** Keeps the thread's namespace of one more kind. */
    method Capture(t: Ns) returns (ok: bool)
      requires Valid() && !closed && joined == []
      modifies this`originals, this`captured, thread`files, thread`closes
      ensures Valid()
      ensures !ok ==> captured == old(captured)
      ensures ok ==> t !in old(captured) && captured.Keys == old(captured.Keys) + {t} && captured[t].inode == thread.current[t]
      ensures forall u :: u in old(captured) ==> u in captured && captured[u] == old(captured)[u]
      ensures thread.reliable ==> (ok <==> t !in old(captured))
    {
      hide Kept, StackOk;
      if t in originals {
        return false;
      }
      var fd := thread.Open(t);
      if fd.None? {
        return false;
      }
      var inode := thread.Inspect(fd.value);
      var verified := false;
      if inode.Some? {
        verified := thread.Validate(fd.value, t, inode.value);
      }
      if !verified {
        var _ := thread.Close(fd.value);
        KeptLater(captured, {}, start, old(thread.files), old(thread.closes), thread.files, thread.closes);
        return false;
      }
      KeptCapture(captured, start, old(thread.files), old(thread.closes), t, inode.value);
      originals := originals[t := Original(fd.value, inode.value)];
      StackWider(captured.Keys, originals.Keys, joined, targets);
      captured := originals;
      ok := true;
    }

    /** Takes the last occurrence of a kind off the joined stack. */
    method Unstack(t: Ns)
      requires Valid() && t in joined && !closed
      requires thread.current[t] == captured[t].inode
      modifies this`joined, this`targets
      ensures Valid()
      ensures forall u :: u in joined <==> u in old(joined) && u != t
      ensures |joined| < |old(joined)|
    {
      hide Kept;
      var index := |joined| - 1;
      while joined[index] != t
        invariant 0 <= index < |joined|
        invariant t in joined[..index + 1]
        decreases index
      {
        assert joined[..index + 1] == joined[..index] + [joined[index]];
        index := index - 1;
      }
      StackRemove(captured.Keys, joined, targets, index);
      hide StackOk;
      joined := joined[..index] + joined[index + 1..];
      targets := targets - {t};
    }

    /** Goes back to the captured namespace of one kind, and believes it only after reading it back. */
    method Restore(t: Ns) returns (ok: bool)
      requires Valid() && !closed
      modifies this`joined, this`targets, helper`tainted, thread
      ensures Valid() && !closed && (old(helper.tainted) ==> helper.tainted)
      ensures forall u: Ns :: u !in captured ==> thread.current[u] == old(thread.current[u])
      ensures ok ==> forall u :: u in joined <==> u in old(joined) && u != t
      ensures ok && t in old(joined) ==> |joined| < |old(joined)| && helper.tainted
      ensures !ok ==> joined == old(joined)
      ensures forall u: Ns :: u != t ==> thread.current[u] == old(thread.current[u])
      ensures helper.Works() ==> ok
    {
      hide Kept;
      if t !in joined {
        return true;
      }
      ok := helper.Setns(t, originals[t].inode);
      if !ok {
        return;
      }
      var fd := thread.Open(t);
      if fd.None? {
        return false;
      }
      var verified := thread.Validate(fd.value, t, originals[t].inode);
      var released := thread.Close(fd.value);
      KeptLater(captured, {}, start, old(thread.files), old(thread.closes), thread.files, thread.closes);
      if !verified || !released {
        return false;
      }
      Unstack(t);
    }

    /** Moves the thread into a verified namespace; the kind stays on the stack unless it is known to be where it was. */
    method Join(target: Namespace) returns (ok: bool)
      requires Valid() && !closed
      modifies this`joined, this`targets, helper`tainted, helper`unshared, helper`fsPrivate, thread
      ensures Valid() && !closed && (old(helper.tainted) ==> helper.tainted)
      ensures helper.unshared == old(helper.unshared)
      ensures forall u: Ns :: u !in captured ==> thread.current[u] == old(thread.current[u])
      ensures ok ==> joined == old(joined) + [target.kind] && helper.tainted && thread.current[target.kind] == target.inode
      ensures forall u: Ns :: u != target.kind ==> thread.current[u] == old(thread.current[u])
      ensures helper.Works() ==> (ok <==> target.kind in captured && target.kind !in old(joined))
      ensures thread.current[Mnt] != old(thread.current[Mnt]) ==> !thread.sharesFs
    {
      hide Kept;
      ok := helper.CheckThread();
      var t := target.kind;
      if !ok || t !in originals || t in joined {
        return false;
      }
      if t == Mnt {
        ok := helper.EnsurePrivateFS();
        if !ok {
          return;
        }
      }
      StackPush(captured.Keys, joined, targets, t);
      ok := Enter(target);
    }

    /** The part of a join that moves the thread. */
    method Enter(target: Namespace) returns (ok: bool)
      requires Valid() && !closed
      requires target.kind in captured && target.kind !in joined && (target.kind == Mnt ==> !thread.sharesFs)
      modifies this`joined, this`targets, helper`tainted, thread
      ensures Valid() && !closed && (old(helper.tainted) ==> helper.tainted)
      ensures forall u: Ns :: u !in captured ==> thread.current[u] == old(thread.current[u])
      ensures ok ==> joined == old(joined) + [target.kind] && helper.tainted && thread.current[target.kind] == target.inode
      ensures forall u: Ns :: u != target.kind ==> thread.current[u] == old(thread.current[u])
      ensures helper.Works() ==> ok
    {
      hide Kept, StackOk;
      var t := target.kind;
      StackPush(captured.Keys, joined, targets, t);
      ghost var before, f, c := joined, thread.files, thread.closes;
      joined := joined + [t];
      var moved := helper.Setns(t, target.inode);
      if !moved {
        var unmoved := thread.Probe(t, originals[t].inode);
        KeptLater(captured, {}, start, f, c, thread.files, thread.closes);
        if unmoved {
          joined := joined[..|joined| - 1];
          assert joined == before;
        }
        return false;
      }
      ok := thread.Probe(t, target.inode);
      KeptLater(captured, {}, start, f, c, thread.files, thread.closes);
      if !ok {
        var _ := Restore(t);
        return;
      }
      targets := targets[t := target.inode];
      TargetOfJoined(captured.Keys, joined, old(targets), t, target.inode);
    }

    /** Closes each captured descriptor. */
    method CloseWithoutRestore() returns (ok: bool)
      requires Valid() && !closed
      modifies this`originals, this`closed, thread`closes
      ensures Valid() && closed
      ensures thread.reliable ==> ok
    {
      hide Kept, StackOk, InPlace;
      ok := true;
      ghost var done: set<Ns> := {};
      while originals != map[]
        invariant thread.Valid() && helper.Valid()
        invariant Kept(captured, done, start, thread.files, thread.closes)
        invariant originals == captured - done
        invariant thread.reliable ==> ok
        decreases |originals|
      {
        var t :| t in originals;
        KeptClose(captured, done, start, thread.files, thread.closes, t);
        var closes := thread.Close(originals[t].fd);
        ok := ok && closes;
        originals := originals - {t};
        done := done + {t};
      }
      AllClosed(captured, done, start, thread.files, thread.closes);
      closed := true;
    }

    /**
     Ends the session. Only the call that ends it decides whether the thread is
     clean: then every captured kind is back where it was.
     */
    method Close() returns (clean: bool)
      requires Valid()
      modifies this, helper`tainted, thread
      ensures Valid() && closed && captured == old(captured) && (old(helper.tainted) ==> helper.tainted)
      ensures old(closed) ==> clean && thread.current == old(thread.current) && thread.closes == old(thread.closes)
      ensures !old(closed) && clean ==>
                forall t :: t in captured && t !in helper.unshared ==> thread.current[t] == captured[t].inode
      ensures !old(closed) && clean && old(joined) != [] ==> helper.tainted
      ensures forall u: Ns :: u !in captured ==> thread.current[u] == old(thread.current[u])
      ensures helper.Works() ==> clean
      ensures old(joined) == [] ==> helper.tainted == old(helper.tainted)
    {
      hide Kept, StackOk;
      if closed {
        return true;
      }
      clean := helper.CheckThread();
      if clean {
        while joined != []
          invariant Valid() && !closed && captured == old(captured) && (old(helper.tainted) ==> helper.tainted)
          invariant joined != old(joined) ==> helper.tainted
          invariant old(joined) == [] ==> joined == [] && helper.tainted == old(helper.tainted)
          invariant helper.Works() ==> clean
          invariant forall u: Ns :: u !in captured ==> thread.current[u] == old(thread.current[u])
          decreases |joined|
        {
          var expired: bool := *;
          if expired && !helper.Works() {
            clean := false;
            break;
          }
          var restored := Restore(joined[|joined| - 1]);
          if !restored {
            clean := false;
            break;
          }
        }
      }
      var _ := CloseWithoutRestore();
    }
  }

  /** Captures the thread's namespaces of the given kinds; a session that cannot be set up comes back closed. */
  method Begin(helper: Helper, kinds: seq<Ns>, ghost start: nat) returns (session: Session, ok: bool)
    requires helper.Valid() && Kept(map[], {}, start, helper.thread.files, helper.thread.closes)
    modifies helper.thread`files, helper.thread`closes
    ensures fresh(session) && session.Valid() && session.helper == helper && session.joined == [] && session.start == start
    ensures session.closed <==> !ok
    ensures forall t :: t in session.captured ==> session.captured[t].inode == helper.thread.current[t]
    ensures ok ==> session.captured.Keys == (set t | t in kinds)
    ensures helper.Works() && kinds != [] && (forall i, j :: 0 <= i < j < |kinds| ==> kinds[i] != kinds[j]) ==> ok
  {
    hide Kept;
    session := new Session(helper, start);
    var thread := helper.thread;
    ok := helper.CheckThread();
    if !ok || kinds == [] {
      var _ := session.CloseWithoutRestore();
      return session, false;
    }
    for i := 0 to |kinds|
      invariant session.Valid() && !session.closed && session.joined == []
      invariant session.originals.Keys == (set t | t in kinds[..i])
      invariant forall t :: t in session.captured ==> session.captured[t].inode == thread.current[t]
    {
      assert kinds[..i + 1] == kinds[..i] + [kinds[i]];
      var captured := session.Capture(kinds[i]);
      if !captured {
        var _ := session.CloseWithoutRestore();
        return session, false;
      }
    }
    assert kinds[..|kinds|] == kinds;
  }

  lemma NothingKept(done: set<Ns>, start: nat, f: seq<Namespace>, c: seq<nat>)
    ensures Kept(map[], done, start, f, c) <==> start <= |c| == |f| && forall d :: start <= d < |c| ==> c[d] == 1
  {
    assert forall d: Descriptor :: !KeepsOpen(map[], done, d);
  }

  lemma KeptSizes(captured: map<Ns, Original>, done: set<Ns>, start: nat, f: seq<Namespace>, c: seq<nat>)
    requires Kept(captured, done, start, f, c)
    ensures start <= |c| == |f|
  {
  }

  /** With every captured kind done, nothing is left open. */
  lemma DoneIsClosed(captured: map<Ns, Original>, start: nat, f: seq<Namespace>, c: seq<nat>)
    requires Kept(captured, captured.Keys, start, f, c)
    ensures forall d :: start <= d < |c| ==> c[d] == 1
  {
    assert forall d: Descriptor :: !KeepsOpen(captured, captured.Keys, d);
  }

  lemma KeptCapture(captured: map<Ns, Original>, start: nat, f: seq<Namespace>, c: seq<nat>, t: Ns, inode: Inode)
    requires Kept(captured, {}, start, f, c) && t !in captured
    ensures Kept(captured[t := Original(|f|, inode)], {}, start, f + [Namespace(t, inode)], c + [0])
  {
    var more := captured[t := Original(|f|, inode)];
    assert more[t].fd == |f|;
    forall d: Descriptor | start <= d <= |c|
      ensures KeepsOpen(more, {}, d) <==> KeepsOpen(captured, {}, d) || d == |f|
    {
      if KeepsOpen(captured, {}, d) {
        var u :| u in captured && captured[u].fd == d;
        assert more[u].fd == d;
      }
    }
  }

  predicate KindsDiffer(handles: seq<Namespace>) {
    forall i, j :: 0 <= i < j < |handles| ==> handles[i].kind != handles[j].kind
  }

  /** Verifies the handles, captures their kinds and joins them in order; the first failure stops. */
  method JoinNamespaces(helper: Helper, handles: seq<Namespace>, ghost start: nat) returns (session: Session?, ok: bool)
    requires helper.Valid() && Kept(map[], {}, start, helper.thread.files, helper.thread.closes)
    modifies helper`tainted, helper`unshared, helper`fsPrivate, helper.thread
    ensures helper.Valid() && (old(helper.tainted) ==> helper.tainted) && helper.unshared == old(helper.unshared)
    ensures session != null ==> fresh(session) && session.Valid() && !session.closed && session.helper == helper && session.start == start
    ensures session == null ==> !ok && helper.thread.current == old(helper.thread.current)
    ensures session == null ==> Kept(map[], {}, start, helper.thread.files, helper.thread.closes)
    ensures session != null ==>
              && (forall t :: t in session.captured ==> session.captured[t].inode == old(helper.thread.current[t]))
              && (forall u: Ns :: u !in session.captured ==> helper.thread.current[u] == old(helper.thread.current[u]))
    ensures ok ==> session != null && |session.joined| == |handles|
    ensures ok ==> forall k :: 0 <= k < |handles| ==>
              session.joined[k] == handles[k].kind && helper.thread.current[handles[k].kind] == handles[k].inode
    ensures helper.Works() ==> (ok <==> handles != [] && KindsDiffer(handles))
    ensures ok ==> helper.tainted
    ensures !ok && helper.Works() ==> session == null && helper.tainted == old(helper.tainted)
  {
    hide Kept, StackOk, InPlace;
    ok := helper.CheckThread();
    var verified: bool := *;
    if !ok || !(verified || helper.thread.reliable) || handles == [] || !KindsDiffer(handles) {
      return null, false;
    }
    var begun;
    var kinds := seq(|handles|, i requires 0 <= i < |handles| => handles[i].kind);
    begun, ok := Begin(helper, kinds, start);
    if !ok {
      DoneIsClosed(begun.captured, start, helper.thread.files, helper.thread.closes);
      KeptSizes(begun.captured, begun.captured.Keys, start, helper.thread.files, helper.thread.closes);
      NothingKept({}, start, helper.thread.files, helper.thread.closes);
      return null, false;
    }
    session := begun;
    assert forall k :: 0 <= k < |handles| ==> kinds[k] == handles[k].kind && kinds[k] in kinds;
    ok := JoinAll(begun, handles);
  }

  method JoinAll(session: Session, handles: seq<Namespace>) returns (ok: bool)
    requires session.Valid() && !session.closed && session.joined == [] && KindsDiffer(handles)
    requires forall k :: 0 <= k < |handles| ==> handles[k].kind in session.captured
    modifies session`joined, session`targets, session.helper`tainted, session.helper`unshared, session.helper`fsPrivate, session.thread
    ensures session.Valid() && !session.closed
    ensures (old(session.helper.tainted) ==> session.helper.tainted) && session.helper.unshared == old(session.helper.unshared)
    ensures forall u: Ns :: u !in session.captured ==> session.thread.current[u] == old(session.thread.current[u])
    ensures ok ==> |session.joined| == |handles|
    ensures ok ==> forall k :: 0 <= k < |handles| ==>
              session.joined[k] == handles[k].kind && session.thread.current[handles[k].kind] == handles[k].inode
    ensures session.helper.Works() ==> ok
    ensures ok && handles != [] ==> session.helper.tainted
  {
    hide Kept, StackOk, InPlace;
    for i := 0 to |handles|
      invariant session.Valid() && !session.closed
      invariant (old(session.helper.tainted) ==> session.helper.tainted) && session.helper.unshared == old(session.helper.unshared)
      invariant forall u: Ns :: u !in session.captured ==> session.thread.current[u] == old(session.thread.current[u])
      invariant |session.joined| == i && (i > 0 ==> session.helper.tainted)
      invariant forall k :: 0 <= k < i ==>
                  session.joined[k] == handles[k].kind && session.thread.current[handles[k].kind] == handles[k].inode
    {
      ok := session.Join(handles[i]);
      if !ok {
        return;
      }
    }
    ok := true;
  }

  /**
   One helper on a thread of its own: whatever the action does, in whatever
   order, the thread goes back to the pool only untainted and in exactly the
   namespaces it came with, and every descriptor opened on the way, by sessions
   that were set up and by those that could not be, was closed exactly once. On
   a reliable kernel it goes back whenever the action did not taint it.
   */
  method RunLockedHelper(thread: Thread, steps: nat) returns (pooled: bool, session: Session?, ghost spoiled: bool)
    requires thread.Valid()
    modifies thread
    ensures thread.Valid()
    ensures pooled ==> !spoiled && forall u: Ns :: thread.current[u] == old(thread.current[u])
    ensures thread.reliable && !spoiled ==> pooled
    ensures steps == 0 ==> !spoiled
    ensures |thread.files| == |thread.closes| && forall d :: |old(thread.closes)| <= d < |thread.closes| ==> thread.closes[d] == 1
  {
    hide Kept;
    ghost var start := |thread.closes|;
    NothingKept({}, start, thread.files, thread.closes);
    var helper := new Helper(thread);
    session := null;
    for i := 0 to steps
      invariant helper.Valid() && helper.thread == thread && helper.active && fresh(helper)
      invariant i == 0 ==> !helper.tainted
      invariant session != null && thread.reliable ==> helper.tainted
      invariant session != null ==>
                  fresh(session) && session.Valid() && !session.closed && session.helper == helper && session.start == start
      invariant session == null ==> Kept(map[], {}, start, thread.files, thread.closes)
      invariant session == null && helper.unshared == {} ==> forall u: Ns :: thread.current[u] == old(thread.current[u])
      invariant session != null && helper.unshared == {} ==>
                  && (forall t :: t in session.captured ==> session.captured[t].inode == old(thread.current[t]))
                  && (forall u: Ns :: u !in session.captured ==> thread.current[u] == old(thread.current[u]))
    {
      var choice: nat, kinds: set<Ns>, handles: seq<Namespace> := *, *, *;
      if choice == 0 {
        var fs: bool := *;
        var _ := helper.Unshare(kinds, fs);
      } else if choice == 1 {
        helper.tainted := true;
      } else if session == null {
        var joins;
        session, joins := JoinNamespaces(helper, handles, start);
      }
    }
    spoiled := helper.tainted;
    var clean := true;
    if session != null {
      clean := session.Close();
      DoneIsClosed(session.captured, start, thread.files, thread.closes);
    }
    NothingKept({}, start, thread.files, thread.closes);
    if !clean {
      helper.tainted := true;
    }
    helper.active := false;
    pooled := !helper.tainted;
  }
}
