/**
 The file below a workload log: appended bytes, of which only some are on stable
 storage. Every primitive may fall short or fail; a reliable file never fails.
 */
module LogFiles {
  import opened Bytes
  import opened Results

  /** What is in a file, what of it has been synchronized, and whether its writer holds the commit lock. */
  datatype Disk = Disk(data: seq<byte>, synced: seq<byte>, locked: bool)

  datatype ReadEnd = More | Eof | Failed

  /**
   What a power failure may leave: synchronized bytes survive, unsynchronized
   ones may be lost from the end, and a run no longer than a commit marker may
   come back as any bytes at all. A truncation not yet synchronized may be undone.
   */
  ghost predicate CrashLeaves(d: Disk, torn: nat, image: seq<byte>) {
    if |d.synced| <= |d.data| then
      d.synced <= image && |image| <= |d.data| && (image <= d.data || |d.data| - |d.synced| <= torn)
    else
      d.data <= image <= d.synced
  }

  /** Bytes changed only from one state with the commit lock to another. */
  ghost predicate Guarded(trace: seq<Disk>) {
    forall i :: 0 < i < |trace| && trace[i].data != trace[i - 1].data ==> trace[i - 1].locked && trace[i].locked
  }

  class File {
    /** Whether the primitives succeed; no operation changes it. */
    var reliable: bool

    /** What the file reads as, and what of it is on stable storage. */
    var data: seq<byte>
    var synced: seq<byte>

    /** The exclusive lock of the one open writer, and the commit lock it takes to change bytes. */
    var held: bool
    var locked: bool

    /** Every state the disk has been in since the machine started. */
    ghost var trace: seq<Disk>

    /** The trace ends in the present state, and no byte ever changed without the commit lock. */
    ghost predicate Valid()
      reads this
    {
      trace != [] && trace[|trace| - 1] == Now() && Guarded(trace) && (locked ==> held)
    }

    constructor (bytes: seq<byte>, reliable: bool)
      ensures Valid() && data == bytes && synced == bytes && !held && !locked && this.reliable == reliable
    {
      this.reliable, held, locked := reliable, false, false;
      data, synced, trace := bytes, bytes, [Disk(bytes, bytes, false)];
    }

    ghost function Now(): Disk
      reads this
    {
      Disk(data, synced, locked)
    }

    /** Takes the exclusive lock, which no other open writer may have. */
    method Hold() returns (ok: bool)
      requires Valid()
      modifies this`held
      ensures Valid()
      ensures ok ==> !old(held) && held
      ensures !ok ==> held == old(held)
      ensures reliable ==> ok == !old(held)
    {
      var fails: bool := *;
      ok := !held && (reliable || !fails);
      held := held || ok;
    }

    /** Takes the commit lock, or fails only when the system does. */
    method AcquireCommitLock() returns (ok: bool)
      requires Valid() && held && !locked
      modifies this`locked, this`trace
      ensures Valid() && locked == ok
      ensures trace == if ok then old(trace) + [Now()] else old(trace)
      ensures reliable ==> ok
    {
      var fails: bool := *;
      ok := reliable || !fails;
      if ok {
        locked := true;
        trace := trace + [Now()];
      }
    }

    /** Gives the commit lock back. A release that fails leaves it taken. */
    method ReleaseCommitLock() returns (ok: bool)
      requires Valid() && locked
      modifies this`locked, this`trace
      ensures Valid() && locked == !ok
      ensures trace == if ok then old(trace) + [Now()] else old(trace)
      ensures reliable ==> ok
    {
      var fails: bool := *;
      ok := reliable || !fails;
      if ok {
        locked := false;
        trace := trace + [Now()];
      }
    }

    /** The descriptor goes, and both locks with it. */
    method Drop()
      requires Valid()
      modifies this`held, this`locked, this`trace
      ensures Valid() && !held && !locked && trace == old(trace) + [Now()]
    {
      held, locked := false, false;
      trace := trace + [Now()];
    }

    /** Appends some front part of p. Only a count within range says how much was written. */
    method Write(p: seq<byte>) returns (written: int, ok: bool)
      requires Valid() && locked
      modifies this`data, this`synced, this`trace
      ensures Valid()
      ensures exists k :: 0 <= k <= |p| && data == old(data) + p[..k] && (0 <= written <= |p| ==> k == written)
      ensures synced == old(synced) && trace == old(trace) + [Now()]
      ensures reliable && p != [] ==> ok && 0 < written <= |p|
    {
      var least: nat := if reliable && p != [] then 1 else 0;
      var k: nat :| least <= k <= |p|;
      var honest: bool, fails: bool := *, *;
      written := if honest || reliable then k else -1;
      ok := reliable || !fails;
      data := data + p[..k];
      trace := trace + [Now()];
    }

    /** Reads some of the n bytes at an offset. */
    method ReadAt(n: nat, offset: nat) returns (chunk: seq<byte>, count: int, end: ReadEnd)
      ensures 0 <= count <= n ==> |chunk| == count && (chunk == [] || (offset + count <= |data| && chunk == data[offset..offset + count]))
      ensures reliable && 0 < n && offset + n <= |data| ==> 0 < count <= n && (end == More || (end == Eof && count == n))
    {
      if offset + n > |data| {
        var most := if offset > |data| then 0 else |data| - offset;
        var k: nat :| k <= most;
        return if k == 0 then [] else data[offset..offset + k], k, Eof;
      }
      var least: nat := if reliable && 0 < n then 1 else 0;
      var k: nat :| least <= k <= n;
      var honest: bool, fails: bool := *, *;
      chunk := data[offset..offset + k];
      count := if honest || reliable then k else n + 1;
      end := if fails && !reliable then Failed else if k == n then Eof else More;
    }

    method Stat() returns (size: Option<nat>)
      ensures size.Some? ==> size.value == |data|
      ensures reliable ==> size.Some?
    {
      var fails: bool := *;
      size := if fails && !reliable then None else Some(|data|);
    }

    /** A synchronization that reports failure may still have reached the disk. */
    method Sync() returns (ok: bool)
      requires Valid()
      modifies this`data, this`synced, this`trace
      ensures Valid()
      ensures data == old(data) && trace == old(trace) + [Now()]
      ensures synced == data || (!ok && synced == old(synced))
      ensures reliable ==> ok
    {
      var fails: bool, reaches: bool := *, *;
      ok := reliable || !fails;
      synced := if ok || reaches then data else synced;
      trace := trace + [Now()];
    }

    /** The machine stops: whatever a power failure may leave is what the next start finds. */
    method Crash(torn: nat) returns (image: seq<byte>)
      requires synced <= data || data <= synced
      ensures CrashLeaves(Now(), torn, image)
    {
      var keep: nat, junk: seq<byte>, tears: bool := *, *, *;
      if |synced| <= |data| {
        if tears && |junk| <= |data| - |synced| <= torn {
          return synced + junk;
        }
        image := if |synced| <= keep <= |data| then data[..keep] else data;
      } else {
        image := if |data| <= keep <= |synced| then synced[..keep] else synced;
      }
    }

    method Truncate(size: nat) returns (ok: bool)
      requires Valid() && locked && size <= |data|
      modifies this`data, this`synced, this`trace
      ensures Valid()
      ensures synced == old(synced) && trace == old(trace) + [Now()]
      ensures data == old(data)[..size] || (!ok && data == old(data))
      ensures reliable ==> ok
    {
      var fails: bool, cuts: bool := *, *;
      ok := reliable || !fails;
      data := if ok || cuts then data[..size] else data;
      trace := trace + [Now()];
    }
  }

  /** A trace that went on, with the commit lock, through states in which more and more of p had been added to base. */
  ghost predicate Grew(before: seq<Disk>, after: seq<Disk>, base: seq<byte>, p: seq<byte>, synced: seq<byte>) {
    UnderLock(base, p, before, after) && forall i :: |before| <= i < |after| ==> after[i].synced == synced
  }

  ghost predicate UnderLock(base: seq<byte>, p: seq<byte>, before: seq<Disk>, after: seq<Disk>) {
    && before <= after
    && forall i :: |before| <= i < |after| ==>
         && after[i].locked && base <= after[i].data <= base + p
         && (0 < i ==> after[i - 1].data <= after[i].data)
  }

  lemma NothingGrown(trace: seq<Disk>, base: seq<byte>, p: seq<byte>, synced: seq<byte>)
    ensures Grew(trace, trace, base, p, synced)
  {
  }

  lemma GrewOne(before: seq<Disk>, after: seq<Disk>, base: seq<byte>, p: seq<byte>, synced: seq<byte>, d: Disk)
    requires Grew(before, after, base, p, synced) && d.synced == synced && d.locked && base <= d.data <= base + p
    requires after != [] && after[|after| - 1].data <= d.data
    ensures Grew(before, after + [d], base, p, synced)
  {
  }

  lemma PartlyWritten(base: seq<byte>, p: seq<byte>, rest: seq<byte>, j: nat)
    requires |rest| <= |p| && rest == p[|p| - |rest|..] && j <= |rest|
    ensures base + p[..|p| - |rest|] + rest[..j] == base + p[..|p| - |rest| + j]
    ensures base <= base + p[..|p| - |rest| + j] <= base + p
    ensures rest[j..] == p[|p| - |rest| + j..]
  {
    assert p == p[..|p| - |rest| + j] + p[|p| - |rest| + j..];
  }

  /** Repeats short writes until everything is written, and stops at the first refusal. */
  method WriteFull(file: File, p: seq<byte>) returns (ok: bool)
    requires file.Valid() && file.locked
    modifies file`data, file`synced, file`trace
    ensures file.Valid()
    ensures old(file.data) <= file.data <= old(file.data) + p
    ensures file.synced == old(file.synced)
    ensures Grew(old(file.trace), file.trace, old(file.data), p, old(file.synced))
    ensures ok ==> file.data == old(file.data) + p
    ensures file.reliable ==> ok
  {
    hide Grew, Guarded;
    var rest := p;
    NothingGrown(file.trace, file.data, p, file.synced);
    while rest != []
      invariant file.Valid()
      invariant |rest| <= |p| && rest == p[|p| - |rest|..]
      invariant file.data == old(file.data) + p[..|p| - |rest|]
      invariant file.synced == old(file.synced)
      invariant Grew(old(file.trace), file.trace, old(file.data), p, old(file.synced))
      decreases |rest|
    {
      ghost var before, trace := file.data, file.trace;
      var written, accepted := file.Write(rest);
      ghost var j :| 0 <= j <= |rest| && file.data == before + rest[..j] && (0 <= written <= |rest| ==> j == written);
      PartlyWritten(old(file.data), p, rest, j);
      GrewOne(old(file.trace), trace, old(file.data), p, old(file.synced), file.Now());
      if written < 0 || written > |rest| {
        return false;
      }
      rest := rest[written..];
      if !accepted || written == 0 {
        return false;
      }
    }
    assert p[..|p|] == p;
    return true;
  }

  /** Reads exactly n bytes or fails. */
  method ReadFullAt(file: File, n: nat, offset: nat) returns (r: Option<seq<byte>>)
    ensures r.Some? ==> |r.value| == n && (n == 0 || (offset + n <= |file.data| && r.value == file.data[offset..offset + n]))
    ensures file.reliable && offset + n <= |file.data| ==> r.Some?
  {
    var read: seq<byte> := [];
    while |read| < n
      invariant |read| <= n
      invariant read == [] || (offset + |read| <= |file.data| && read == file.data[offset..offset + |read|])
      decreases n - |read|
    {
      var chunk, count, end := file.ReadAt(n - |read|, offset + |read|);
      if count < 0 || count > n - |read| {
        return None;
      }
      read := read + chunk;
      if end != More {
        return if end == Eof && |read| == n then Some(read) else None;
      }
      if count == 0 {
        return None;
      }
    }
    return Some(read);
  }
}
