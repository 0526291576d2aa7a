/**
 The writer of a workload log. Its in-memory index always agrees with the bytes
 on file, a failed append poisons it until it is reopened, and whatever happens
 the confirmed history only grows.
 */
module LogStore {
  import opened Bytes
  import opened Results
  import opened FrameCodec
  import opened LogHistory
  import opened LogFiles
  import opened LogScan
  import opened LogRecovery

  /** The frame an append builds from the caller's bytes and the next positions. */
  function NewFrame(c: Codec, id: Identity, h: seq<Frame>, stream: Stream, payload: seq<byte>): Frame
    requires |h| < MAX_U64
  {
    Frame(SCHEMA_VERSION, id, stream, |h| + 1, CountStream(h, stream) + 1, payload, c.sha(payload))
  }

  function EncodedSize(f: Frame): nat {
    PREFIX_BYTES + FIXED_BYTES + |f.identity.container| + |f.identity.attempt| + |f.payload| + COMMIT_BYTES
  }

  /** The disk, and every state it went through, is a state of appending f to h in two phases. */
  ghost predicate AppendedInPhases(c: Codec, h: seq<Frame>, f: Frame, before: seq<Disk>, after: seq<Disk>, now: Disk) {
    && AllValid(c, h) && c.Valid(f)
    && AllTwoPhase(Image(c, h), c.Encoded(f), before, after)
    && Appending(c, h, f, now)
  }

  lemma NewFrameFollows(c: Codec, id: Identity, h: seq<Frame>, stream: Stream, payload: seq<byte>)
    requires |h| < MAX_U64 && c.IdentityOk(id) && stream.Valid() && 0 < |payload| <= MAX_PAYLOAD_BYTES
    ensures Follows(c, id, h, NewFrame(c, id, h, stream, payload))
  {
  }

  /** Reading back the image of a history gives that history and nothing left over. */
  lemma ParseOfHistory(c: Codec, id: Identity, h: seq<Frame>)
    requires IsHistory(c, id, h)
    ensures AllValid(c, h)
    ensures Parse(c, id, Image(c, h), []) == Parsed(h, [], Clean)
  {
    hide Parse, IsHistory, Codec.Encoded, Body;
    HistoryIsValid(c, id, h);
    assert [] + h == h && Image(c, h) + [] == Image(c, h);
    ParseOfImage(c, id, [], h, []);
    EmptyEnds(c, id, h);
  }

  /** A log is accepted without any leftover exactly when it is the image of a history. */
  lemma CleanIffImage(c: Codec, id: Identity, s: seq<byte>)
    ensures Parse(c, id, s, []).end == Clean && Parse(c, id, s, []).tail == []
            <==> exists h :: IsHistory(c, id, h) && AllValid(c, h) && s == Image(c, h)
  {
    hide Parse, IsHistory, Codec.Encoded, Body;
    var p := Parse(c, id, s, []);
    if p.end == Clean && p.tail == [] {
      ParsedHistory(c, id, s);
      assert s == Image(c, p.history);
    }
    if h :| IsHistory(c, id, h) && AllValid(c, h) && s == Image(c, h) {
      ParseOfHistory(c, id, h);
    }
  }

  lemma ParsedHistory(c: Codec, id: Identity, s: seq<byte>)
    ensures var p := Parse(c, id, s, []);
            && IsHistory(c, id, p.history) && AllValid(c, p.history)
            && s == Image(c, p.history) + p.tail && |p.history| <= MAX_U64
  {
    hide Parse, Codec.Encoded, Body, Codec.Validate, Follows;
    ParsedIsImage(c, id, s, []);
    ParsedIsBounded(c, id, s, []);
    var p := Parse(c, id, s, []);
    assert p.history[0..] == p.history;
  }

  /** The scan of a confirmed prefix always agrees with the index kept in memory, so the cross-check of a read never fires. */
  lemma ScanAgreesWithIndex(c: Codec, id: Identity, h: seq<Frame>, data: seq<byte>, after: u64, limit: nat)
    requires IsHistory(c, id, h) && AllValid(c, h) && |h| <= MAX_U64
    requires Image(c, h) <= data
    ensures var p := Parse(c, id, data[..|Image(c, h)|], []);
            && |p.history| <= MAX_U64
            && Scanned(p, after, limit, true, false, |Image(c, h)|)
               == if after > |h| then Err(CursorGap(after, |h|))
                  else Ok(Scan(Page(h, after, limit), |h|,
                               map[Stdout := CountStream(h, Stdout), Stderr := CountStream(h, Stderr)],
                               |Image(c, h)|))
  {
    hide Parse, IsHistory, Codec.Encoded, Body, Image, Page, CountStream;
    ParseOfHistory(c, id, h);
    assert data[..|Image(c, h)|] == Image(c, h);
  }

  /** Every state the disk went through belongs to the two phases of writing encoded after base. */
  ghost predicate AllTwoPhase(base: seq<byte>, encoded: seq<byte>, before: seq<Disk>, after: seq<Disk>)
    requires |encoded| >= COMMIT_BYTES
  {
    && before <= after
    && forall i :: |before| <= i < |after| ==> TwoPhase(base, encoded, after[i])
  }

  lemma PreparedWrites(base: seq<byte>, encoded: seq<byte>, before: seq<Disk>, after: seq<Disk>)
    requires |encoded| >= COMMIT_BYTES
    requires Grew(before, after, base, encoded[..|encoded| - COMMIT_BYTES], base)
    ensures AllTwoPhase(base, encoded, before, after)
  {
  }

  lemma MarkerWrites(base: seq<byte>, encoded: seq<byte>, before: seq<Disk>, after: seq<Disk>)
    requires |encoded| >= COMMIT_BYTES
    requires var n := |encoded| - COMMIT_BYTES; Grew(before, after, base + encoded[..n], encoded[n..], base + encoded[..n])
    ensures AllTwoPhase(base, encoded, before, after)
  {
    var n := |encoded| - COMMIT_BYTES;
    assert base + encoded[..n] + encoded[n..] == base + encoded;
  }

  lemma ThenOneMore(base: seq<byte>, encoded: seq<byte>, before: seq<Disk>, middle: seq<Disk>, d: Disk)
    requires |encoded| >= COMMIT_BYTES
    requires AllTwoPhase(base, encoded, before, middle) && TwoPhase(base, encoded, d)
    ensures AllTwoPhase(base, encoded, before, middle + [d])
  {
  }

  lemma ThenMore(base: seq<byte>, encoded: seq<byte>, before: seq<Disk>, middle: seq<Disk>, after: seq<Disk>)
    requires |encoded| >= COMMIT_BYTES
    requires AllTwoPhase(base, encoded, before, middle) && AllTwoPhase(base, encoded, middle, after)
    ensures AllTwoPhase(base, encoded, before, after)
  {
    hide TwoPhase;
  }

  lemma TwoPhaseCases(base: seq<byte>, encoded: seq<byte>, d: Disk)
    requires |encoded| >= COMMIT_BYTES
    requires var p := base + encoded[..|encoded| - COMMIT_BYTES];
             || (d.data == p && (d.synced == base || d.synced == p))
             || (d.data == base + encoded && (d.synced == p || d.synced == base + encoded))
    ensures TwoPhase(base, encoded, d)
  {
    var n := |encoded| - COMMIT_BYTES;
    assert base + encoded == base + encoded[..n] + encoded[n..];
  }

  /** The first n bytes and then the rest, written one after the other. */
  lemma UnderLockJoin(base: seq<byte>, p: seq<byte>, n: nat, before: seq<Disk>, middle: seq<Disk>, after: seq<Disk>)
    requires n <= |p| && UnderLock(base, p, before, middle) && UnderLock(base + p[..n], p[n..], middle, after)
    ensures UnderLock(base, p, before, after)
  {
    assert base + p[..n] + p[n..] == base + p;
    forall i | |before| <= i < |after|
      ensures after[i].locked && base <= after[i].data <= base + p
      ensures 0 < i ==> after[i - 1].data <= after[i].data
    {
      if i < |middle| {
        assert middle[i] == after[i] && (0 < i ==> middle[i - 1] == after[i - 1]);
      }
    }
  }

  lemma UnderLockOne(base: seq<byte>, p: seq<byte>, before: seq<Disk>, middle: seq<Disk>, d: Disk)
    requires UnderLock(base, p, before, middle) && d.locked && base <= d.data <= base + p
    requires middle != [] && middle[|middle| - 1].data <= d.data
    ensures UnderLock(base, p, before, middle + [d])
  {
  }

  lemma UnderLockWider(base: seq<byte>, p: seq<byte>, q: seq<byte>, before: seq<Disk>, after: seq<Disk>)
    requires UnderLock(base, p, before, after)
    ensures UnderLock(base, p + q, before, after)
  {
    assert base + p + q == base + (p + q);
  }

  /**
   An append seen from outside: it takes the commit lock before it changes a
   byte, adds the encoding front to back, and gives the lock back only when all
   of it is there.
   */
  ghost predicate PublishedInOrder(base: seq<byte>, encoded: seq<byte>, before: seq<Disk>, after: seq<Disk>) {
    && before <= after
    && (|before| < |after| ==> after[|before|].locked && after[|before|].data == base)
    && forall i :: |before| < i < |after| ==> PublishStep(base, encoded, after[i - 1], after[i])
  }

  ghost predicate PublishStep(base: seq<byte>, encoded: seq<byte>, d: Disk, e: Disk) {
    && d.locked && base <= d.data <= e.data <= base + encoded
    && (!e.locked ==> d.data == e.data == e.synced == base + encoded)
  }

  lemma PublishedSoFar(base: seq<byte>, encoded: seq<byte>, before: seq<Disk>, taken: Disk, after: seq<Disk>)
    requires taken.locked && taken.data == base && UnderLock(base, encoded, before + [taken], after)
    ensures PublishedInOrder(base, encoded, before, after)
  {
    forall i | |before| < i < |after|
      ensures PublishStep(base, encoded, after[i - 1], after[i])
    {
      assert after[|before|] == taken;
    }
    assert |before| < |after| ==> after[|before|] == (before + [taken])[|before|];
  }

  /** A closing store seen from outside: what was left goes at once and under the commit lock, which is given back only when it is gone. */
  ghost predicate ClearedInOrder(base: seq<byte>, before: seq<Disk>, after: seq<Disk>) {
    && before <= after && before != []
    && forall i :: |before| <= i < |after| ==> ClearStep(base, after[i - 1], after[i])
  }

  ghost predicate ClearStep(base: seq<byte>, d: Disk, e: Disk) {
    && d.locked
    && (e.data == d.data || (e.locked && e.data == base))
    && (!e.locked ==> e.data == base)
  }

  lemma NothingCleared(base: seq<byte>, before: seq<Disk>)
    requires before != []
    ensures ClearedInOrder(base, before, before)
  {
  }

  lemma ClearedOne(base: seq<byte>, before: seq<Disk>, middle: seq<Disk>, d: Disk)
    requires ClearedInOrder(base, before, middle) && ClearStep(base, middle[|middle| - 1], d)
    ensures ClearedInOrder(base, before, middle + [d])
  {
  }

  /** Writes an encoded frame in two synchronized phases, all of it under the commit lock. */
  method WriteFrame(file: File, encoded: seq<byte>) returns (ok: bool)
    requires |encoded| >= COMMIT_BYTES && file.Valid() && file.locked
    modifies file`data, file`synced, file`trace
    ensures file.Valid() && UnderLock(old(file.data), encoded, old(file.trace), file.trace)
    ensures old(file.data) <= file.data <= old(file.data) + encoded
    ensures ok ==> file.data == old(file.data) + encoded && file.synced == file.data
    ensures file.reliable ==> ok
    ensures old(file.synced == file.data) ==> AllTwoPhase(old(file.data), encoded, old(file.trace), file.trace)
    ensures old(file.synced == file.data) ==> TwoPhase(old(file.data), encoded, file.Now())
  {
    hide TwoPhase, UnderLock, Guarded;
    ghost var base, settled, before := file.data, file.synced == file.data, file.trace;
    var dataEnd := |encoded| - COMMIT_BYTES;
    assert base + encoded == base + encoded[..dataEnd] + encoded[dataEnd..];
    ok := WriteFull(file, encoded[..dataEnd]);
    UnderLockWider(base, encoded[..dataEnd], encoded[dataEnd..], before, file.trace);
    assert encoded[..dataEnd] + encoded[dataEnd..] == encoded;
    if settled {
      PreparedWrites(base, encoded, before, file.trace);
    }
    if !ok {
      if settled { TwoPhaseNow(base, encoded, file.Now()); }
      return;
    }
    ghost var trace := file.trace;
    ok := file.Sync();
    UnderLockOne(base, encoded, before, trace, file.Now());
    if settled {
      TwoPhaseCases(base, encoded, file.Now());
      ThenOneMore(base, encoded, before, trace, file.Now());
    }
    if !ok {
      return;
    }
    trace := file.trace;
    ok := WriteFull(file, encoded[dataEnd..]);
    UnderLockJoin(base, encoded, dataEnd, before, trace, file.trace);
    if settled {
      MarkerWrites(base, encoded, trace, file.trace);
      ThenMore(base, encoded, before, trace, file.trace);
    }
    if !ok {
      if settled { TwoPhaseNow(base, encoded, file.Now()); }
      return;
    }
    trace := file.trace;
    ok := file.Sync();
    UnderLockOne(base, encoded, before, trace, file.Now());
    if settled {
      TwoPhaseCases(base, encoded, file.Now());
      ThenOneMore(base, encoded, before, trace, file.Now());
    }
  }

  lemma TwoPhaseNow(base: seq<byte>, encoded: seq<byte>, d: Disk)
    requires |encoded| >= COMMIT_BYTES
    requires var p := encoded[..|encoded| - COMMIT_BYTES];
             || (d.synced == base && base <= d.data <= base + p)
             || (d.synced == base + p && base + p <= d.data <= base + encoded)
    ensures TwoPhase(base, encoded, d)
  {
  }

  class Store {
    const codec: Codec
    const file: File
    const identity: Identity
    var lastCursor: u64
    var lastSequence: map<Stream, u64>
    var confirmedSize: nat
    var closed: bool
    var poisoned: bool

    /** The frames whose appends succeeded, oldest first. */
    ghost var history: seq<Frame>

    /** The frame whose append failed, on a poisoned store. */
    ghost var unconfirmed: Option<Frame>

    /** The index agrees with the history. */
    ghost predicate IndexValid()
      reads this
    {
      && codec.IdentityOk(identity)
      && IsHistory(codec, identity, history) && AllValid(codec, history)
      && lastCursor == |history|
      && lastSequence == map[Stdout := CountStream(history, Stdout), Stderr := CountStream(history, Stderr)]
      && confirmedSize == |Image(codec, history)| <= MAX_I64
    }

    /** The index agrees with the history, and the file with both. An open store has its file to itself, and a poisoned one keeps the commit lock. */
    ghost predicate Valid()
      reads this, file
    {
      && IndexValid() && file.Valid()
      && (!closed ==> Image(codec, history) <= file.data && file.held && (file.locked <==> poisoned))
      && (!closed && !poisoned ==> file.data == Image(codec, history))
    }

    /** What is on stable storage: the confirmed bytes, and of a failed append no more than its phase allows. */
    ghost predicate Settled()
      reads this, file
    {
      if poisoned then
        && unconfirmed.Some? && Follows(codec, identity, history, unconfirmed.value)
        && AllValid(codec, history) && Appending(codec, history, unconfirmed.value, file.Now())
        && confirmedSize + EncodedSize(unconfirmed.value) <= MAX_I64
      else file.synced == file.data
    }

    constructor (codec: Codec, file: File, identity: Identity, scan: Scan, ghost history: seq<Frame>)
      ensures this.codec == codec && this.file == file && this.identity == identity
      ensures lastCursor == scan.lastCursor && lastSequence == scan.lastSequence && confirmedSize == scan.validSize
      ensures !closed && !poisoned && this.history == history && unconfirmed == None
    {
      this.codec, this.file, this.identity := codec, file, identity;
      lastCursor, lastSequence, confirmedSize := scan.lastCursor, scan.lastSequence, scan.validSize;
      closed, poisoned := false, false;
      this.history, unconfirmed := history, None;
    }

    /** The first reason to refuse an append before anything is touched, if there is one. */
    function AppendRefusal(stream: Stream, payload: seq<byte>): Option<Error>
      reads this
    {
      if closed then Some(Closed)
      else if poisoned then Some(AppendUnavailable)
      else if !stream.Valid() then Some(UnsupportedStream)
      else if payload == [] then Some(EmptyPayload)
      else if |payload| > MAX_PAYLOAD_BYTES then Some(PayloadTooLong)
      else if lastCursor == MAX_U64 || SequenceOf(lastSequence, stream) == MAX_U64 then Some(Exhausted)
      else None
    }

    /** The frame an append of these bytes would confirm. */
    ghost function Candidate(stream: Stream, payload: seq<byte>): (f: Frame)
      requires Valid() && AppendRefusal(stream, payload).None?
      reads this, file
      ensures Follows(codec, identity, history, f) && f.stream == stream && f.payload == payload
    {
      NewFrameFollows(codec, identity, history, stream, payload);
      NewFrame(codec, identity, history, stream, payload)
    }

    /** The index and the history take in a frame that follows. */
    ghost predicate Confirms(before: seq<Frame>, f: Frame)
      reads this, file
    {
      history == before + [f] && !poisoned && file.synced == file.data
    }

    /**
     Appends one frame after the confirmed history, or leaves the history and
     the index as they were. Once the lock is held, every failure poisons.
     */
    method Append(stream: Stream, payload: seq<byte>) returns (r: Result<Frame, Error>)
      requires Valid()
      modifies this, file`data, file`synced, file`locked, file`trace
      ensures Valid() && closed == old(closed)
      ensures var refusal := old(AppendRefusal(stream, payload));
              && (refusal.Some? ==> r == Err(refusal.value) && file.data == old(file.data))
              && (refusal.None? ==>
                    var f := old(Candidate(stream, payload));
                    && (r.Ok? ==> r.value == f && Confirms(old(history), f))
                    && codec.Valid(f) && PublishedInOrder(old(Image(codec, history)), codec.Encoded(f), old(file.trace), file.trace)
                    && (file.reliable ==> (r.Ok? <==> old(confirmedSize) + EncodedSize(f) <= MAX_I64))
                    && (old(Settled()) ==> AppendedInPhases(codec, old(history), f, old(file.trace), file.trace, file.Now())))
      ensures r.Err? ==> history == old(history) && poisoned == (old(poisoned) || r.error == AppendUnavailable)
      ensures r.Err? && r.error != AppendUnavailable ==> file.data == old(file.data)
      ensures old(Settled()) ==> Settled()
    {
      hide IsHistory, Codec.Validate, Image, CountStream, Codec.Encoded, Body, TwoPhase, AllTwoPhase, PublishedInOrder, Guarded;
      if AppendRefusal(stream, payload).Some? {
        return Err(AppendRefusal(stream, payload).value);
      }
      var frame := Frame(SCHEMA_VERSION, identity, stream, lastCursor + 1, SequenceOf(lastSequence, stream) + 1, payload, codec.sha(payload));
      ghost var f := Candidate(stream, payload);
      assert frame == f;
      var encoded := EncodeFrame(codec, frame);
      NothingWritten(Image(codec, history), encoded.value, file.trace, false);
      NothingPublished(Image(codec, history), encoded.value, file.trace);
      if confirmedSize > MAX_I64 - |encoded.value| {
        return Err(Exhausted);
      }
      var outcome := Publish(encoded.value);
      if outcome == NotStarted {
        return Err(Io);
      }
      if outcome == Unknown {
        poisoned, unconfirmed := true, Some(frame);
        return Err(AppendUnavailable);
      }
      Confirm(frame, |encoded.value|);
      r := Ok(frame);
    }

    /** Takes a published frame into the index. */
    method Confirm(frame: Frame, size: nat)
      requires IndexValid() && Follows(codec, identity, history, frame)
      requires size == |codec.Encoded(frame)| && confirmedSize + size <= MAX_I64
      modifies this`lastCursor, this`lastSequence, this`confirmedSize, this`history
      ensures IndexValid() && history == old(history) + [frame]
      ensures Image(codec, history) == old(Image(codec, history)) + codec.Encoded(frame)
    {
      hide IsHistory, Image, CountStream, Codec.Encoded, Body;
      HistoryGrows(codec, identity, history, frame);
      lastCursor := frame.cursor;
      lastSequence := lastSequence[frame.stream := frame.sequence];
      confirmedSize := confirmedSize + size;
      history := history + [frame];
    }

    /** Writes under the commit lock, which only a complete append gives back. */
    method Publish(encoded: seq<byte>) returns (outcome: Outcome)
      requires |encoded| >= COMMIT_BYTES && file.Valid() && file.held && !file.locked
      modifies file`data, file`synced, file`locked, file`trace
      ensures file.Valid() && file.locked == (outcome == Unknown)
      ensures PublishedInOrder(old(file.data), encoded, old(file.trace), file.trace)
      ensures outcome == NotStarted ==> file.data == old(file.data) && file.synced == old(file.synced) && file.trace == old(file.trace)
      ensures outcome == Published ==> file.data == old(file.data) + encoded && file.synced == file.data
      ensures old(file.data) <= file.data <= old(file.data) + encoded
      ensures file.reliable ==> outcome == Published
      ensures old(file.synced == file.data) && outcome != NotStarted ==>
                && AllTwoPhase(old(file.data), encoded, old(file.trace), file.trace)
                && TwoPhase(old(file.data), encoded, file.Now())
    {
      hide AllTwoPhase, TwoPhase, UnderLock, Guarded, PublishedInOrder;
      ghost var base, before := file.data, file.trace;
      NothingPublished(base, encoded, before);
      var acquired := file.AcquireCommitLock();
      if !acquired {
        return NotStarted;
      }
      ghost var settled, taken := file.synced == file.data, file.Now();
      if settled { NothingWritten(base, encoded, before, true); ThenOneMore(base, encoded, before, before, taken); }
      var written := WriteFrame(file, encoded);
      PublishedSoFar(base, encoded, before, taken, file.trace);
      if settled { ThenMore(base, encoded, before, before + [taken], file.trace); }
      if !written {
        return Unknown;
      }
      ghost var trace := file.trace;
      var released := file.ReleaseCommitLock();
      if released {
        PublishedWhole(base, encoded, before, trace, file.Now());
        if settled { TwoPhaseCases(base, encoded, file.Now()); ThenOneMore(base, encoded, before, trace, file.Now()); }
      }
      outcome := if released then Published else Unknown;
    }

    /**
     A page of the confirmed history. On a reliable file the answer is exactly
     that page or a cursor gap: the comparison of scan and index never fails.
     */
    method Read(after: u64, limit: int) returns (r: Result<seq<Frame>, Error>)
      requires Valid()
      modifies file`data, file`synced, file`trace
      ensures Valid() && file.data == old(file.data) && file.synced == old(file.synced) && file.trace == old(file.trace)
      ensures limit < 0 ==> r == Err(InvalidLimit)
      ensures limit >= 0 && closed ==> r == Err(Closed)
      ensures limit >= 0 && !closed && (r.Ok? || file.reliable) ==>
                r == if after > |history| then Err(CursorGap(after, |history|)) else Ok(Page(history, after, limit))
    {
      hide IsHistory, Codec.Validate, Image, CountStream, Codec.Encoded, Body, Parse, Page;
      if limit < 0 {
        return Err(InvalidLimit);
      }
      if closed {
        return Err(Closed);
      }
      ScanAgreesWithIndex(codec, identity, history, file.data, after, limit);
      var scan := ScanFramePage(codec, file, identity, confirmedSize, after, limit, true, false);
      if scan.Err? {
        return Err(scan.error);
      }
      if scan.value.lastCursor != lastCursor || scan.value.validSize != confirmedSize || scan.value.lastSequence != lastSequence {
        return Err(Corrupt);
      }
      r := Ok(scan.value.frames);
    }

    method LastCursor() returns (r: Result<u64, Error>)
      requires Valid()
      ensures r == if closed then Err(Closed) else Ok(|history|)
    {
      r := if closed then Err(Closed) else Ok(lastCursor);
    }

    /** Closes the store. A poisoned store first removes what its failed append left, and stays open if it cannot. */
    method Close() returns (ok: bool)
      requires Valid()
      modifies this`closed, file`data, file`synced, file`held, file`locked, file`trace
      ensures Valid()
      ensures !old(closed) && closed ==> !file.held && !file.locked
      ensures old(poisoned && !closed) ==> ClearedInOrder(Image(codec, history), old(file.trace), file.trace)
      ensures old(closed) ==> ok && closed && file.data == old(file.data)
      ensures !old(poisoned) && !old(closed) ==> closed && file.data == old(file.data) == Image(codec, history)
      ensures !old(poisoned) ==> file.synced == old(file.synced)
      ensures old(poisoned) && !old(closed) && closed ==> file.data == Image(codec, history) && file.synced == file.data
      ensures !closed ==> !ok
      ensures file.reliable ==> closed
      ensures old(Settled()) ==> Settled()
      ensures old(poisoned && !closed && Settled()) ==>
                AllTwoPhase(Image(codec, history), codec.Encoded(unconfirmed.value), old(file.trace), file.trace)
    {
      hide IsHistory, Codec.Validate, Image, CountStream, Codec.Encoded, Body, AllTwoPhase, TwoPhase, ClearedInOrder, Guarded;
      if closed {
        return true;
      }
      if poisoned {
        ok := RemoveUnconfirmed();
        if !ok {
          return;
        }
      }
      ghost var trace := file.trace;
      file.Drop();
      closed := true;
      if poisoned {
        ClearedOne(Image(codec, history), old(file.trace), trace, file.Now());
      }
      if old(poisoned && Settled()) {
        TwoPhaseBase(Image(codec, history), codec.Encoded(unconfirmed.value), file.Now());
        ThenOneMore(Image(codec, history), codec.Encoded(unconfirmed.value), old(file.trace), trace, file.Now());
      }
      var unlocks: bool := *;
      ok := unlocks;
    }

    method RemoveUnconfirmed() returns (ok: bool)
      requires Valid() && poisoned && !closed
      modifies file`data, file`synced, file`trace
      ensures Valid()
      ensures file.locked && ClearedInOrder(Image(codec, history), old(file.trace), file.trace)
      ensures ok ==> file.data == Image(codec, history) && file.synced == file.data
      ensures file.reliable ==> ok
      ensures old(Settled()) ==> Settled()
      ensures old(Settled()) ==>
                AllTwoPhase(Image(codec, history), codec.Encoded(unconfirmed.value), old(file.trace), file.trace)
    {
      hide IsHistory, Codec.Validate, Image, CountStream, Codec.Encoded, Body, ClearedInOrder, Guarded;
      ghost var base, before := Image(codec, history), file.trace;
      assert file.data[..confirmedSize] == base;
      NothingCleared(base, before);
      ok := file.Truncate(confirmedSize);
      ClearedOne(base, before, before, file.Now());
      if ok {
        ghost var trace := file.trace;
        ok := file.Sync();
        ClearedOne(base, before, trace, file.Now());
      }
    }
  }

  /** The parsed history is confirmed, and with what is left over it is all of the data. */
  ghost predicate Records(c: Codec, id: Identity, data: seq<byte>, p: Parsed) {
    && IsHistory(c, id, p.history) && AllValid(c, p.history) && |p.history| <= MAX_U64
    && data == Image(c, p.history) + p.tail
  }

  lemma ParseRecords(c: Codec, id: Identity, data: seq<byte>)
    ensures Records(c, id, data, Parse(c, id, data, [])) && AllValid(c, Parse(c, id, data, []).history)
  {
    hide Parse, IsHistory, Codec.Encoded, Body, Codec.Validate;
    ParsedHistory(c, id, data);
  }

  /** The index a store starts from. */
  ghost predicate IsIndexOf(c: Codec, h: seq<Frame>, scan: Scan) {
    && AllValid(c, h)
    && scan.lastCursor == |h| && scan.validSize == |Image(c, h)|
    && scan.lastSequence == map[Stdout := CountStream(h, Stdout), Stderr := CountStream(h, Stderr)]
  }

  lemma ScannedForOpen(c: Codec, id: Identity, data: seq<byte>, p: Parsed)
    requires Records(c, id, data, p)
    ensures var s := Scanned(p, 0, 0, false, true, |data|);
            && (s.Ok? <==> Recoverable(p.end))
            && (s.Ok? ==> IsIndexOf(c, p.history, s.value))
    ensures data[..|data| - |p.tail|] == Image(c, p.history)
    ensures p.tail == [] ==> data == Image(c, p.history)
    ensures p.tail == [] && p.history == [] ==> data == []
  {
    hide IsHistory, CountStream, Codec.Encoded, Body, Codec.Validate;
  }

  lemma NothingPublished(base: seq<byte>, encoded: seq<byte>, trace: seq<Disk>)
    ensures PublishedInOrder(base, encoded, trace, trace)
  {
  }

  lemma PublishedWhole(base: seq<byte>, encoded: seq<byte>, before: seq<Disk>, trace: seq<Disk>, last: Disk)
    requires PublishedInOrder(base, encoded, before, trace) && |before| < |trace| && trace[|trace| - 1].locked
    requires trace[|trace| - 1].data == last.data == last.synced == base + encoded && !last.locked
    ensures PublishedInOrder(base, encoded, before, trace + [last])
  {
  }

  lemma TwoPhaseBase(base: seq<byte>, encoded: seq<byte>, d: Disk)
    requires |encoded| >= COMMIT_BYTES && d.data == d.synced == base
    ensures TwoPhase(base, encoded, d)
  {
  }

  /** What a writable open leaves on file: everything, or exactly the frames it accepts. */
  ghost predicate LeavesFrames(c: Codec, h: seq<Frame>, before: seq<byte>, after: seq<byte>, exactly: bool) {
    && AllValid(c, h)
    && (after == Image(c, h) || (!exactly && after == before))
  }

  /** The scan that a writable open runs, with its effect on the file. */
  method Recover(c: Codec, id: Identity, file: File) returns (r: Result<Scan, Error>)
    requires file.Valid() && file.locked
    modifies file`data, file`synced, file`trace
    ensures file.Valid()
    ensures var p := Parse(c, id, old(file.data), []);
            && LeavesFrames(c, p.history, old(file.data), file.data, r.Ok?)
            && (file.synced == old(file.synced) || file.synced == file.data)
            && (r.Ok? ==> Recoverable(p.end) && IsIndexOf(c, p.history, r.value))
            && (file.reliable ==> (r.Ok? <==> Recoverable(p.end)))
            && (r.Ok? ==> file.synced == if p.tail != [] then file.data else old(file.synced))
  {
    hide Parse, IsHistory, Image, CountStream, Codec.Encoded, Body, Scanned, Codec.Validate;
    ghost var data := file.data;
    assert data[..|data|] == data;
    ParseRecords(c, id, data);
    ScannedForOpen(c, id, data, Parse(c, id, data, []));
    var size := file.Stat();
    if size.None? {
      return Err(Io);
    }
    r := ScanFramePage(c, file, id, size.value, 0, 0, false, true);
  }

  /** The same under the commit lock. Every failure lets the descriptor go. */
  method RecoverUnderLock(c: Codec, id: Identity, file: File) returns (r: Result<Scan, Error>)
    requires file.Valid() && file.held && !file.locked
    modifies file`data, file`synced, file`held, file`locked, file`trace
    ensures file.Valid() && !file.locked && file.held == r.Ok?
    ensures var p := Parse(c, id, old(file.data), []);
            && LeavesFrames(c, p.history, old(file.data), file.data, r.Ok?)
            && (file.synced == old(file.synced) || file.synced == file.data)
            && (r.Ok? ==> Recoverable(p.end) && IsIndexOf(c, p.history, r.value))
            && (file.reliable ==> (r.Ok? <==> Recoverable(p.end)))
            && (r.Ok? ==> file.synced == if p.tail != [] then file.data else old(file.synced))
  {
    hide Parse, AllValid, Image, Recoverable, IsIndexOf, Guarded, File.Valid;
    var data := file.data;
    ParseRecords(c, id, data);
    var acquired := file.AcquireCommitLock();
    if !acquired {
      file.Drop();
      return Err(Io);
    }
    r := Recover(c, id, file);
    if r.Err? {
      file.Drop();
      return;
    }
    var released := file.ReleaseCommitLock();
    if !released {
      file.Drop();
      return Err(Io);
    }
  }

  /** A store whose index and file both hold the recovered history. */
  method Indexed(c: Codec, id: Identity, file: File, scan: Scan, ghost data: seq<byte>, ghost p: Parsed) returns (store: Store)
    requires c.IdentityOk(id) && Records(c, id, data, p) && IsIndexOf(c, p.history, scan)
    requires file.data == Image(c, p.history) && |data| <= MAX_I64 && file.Valid() && file.held && !file.locked
    ensures fresh(store) && store.Valid() && !store.closed && !store.poisoned
    ensures store.file == file && store.codec == c && store.identity == id && store.history == p.history
  {
    hide Image, CountStream, Codec.Encoded, Body, Codec.Validate, IsHistory;
    store := new Store(c, file, id, scan, p.history);
  }

  /** A store over the frames a recovery scan found. */
  method Open(c: Codec, id: Identity, file: File) returns (r: Result<Store, Error>)
    requires |file.data| <= MAX_I64 && file.Valid()
    modifies file`data, file`synced, file`held, file`locked, file`trace
    ensures file.Valid() && (r.Err? ==> file.held == old(file.held) && file.locked == old(file.locked))
    ensures !c.IdentityOk(id) ==> r == Err(InvalidIdentity) && file.data == old(file.data)
    ensures c.IdentityOk(id) && old(file.held) ==> r == Err(InUse) && file.Now() == old(file.Now()) && file.trace == old(file.trace)
    ensures var p := Parse(c, id, old(file.data), []);
            && LeavesFrames(c, p.history, old(file.data), file.data, r.Ok?)
            && (file.synced == old(file.synced) || file.synced == file.data)
            && (r.Ok? ==>
                  && Recoverable(p.end) && r.value.history == p.history
                  && (r.value.Settled() <==> p.tail != [] || p.history == [] || old(file.synced == file.data)))
            && (file.reliable && c.IdentityOk(id) && !old(file.held) ==> (r.Ok? <==> Recoverable(p.end)))
    ensures r.Ok? ==>
              && fresh(r.value) && r.value.Valid() && !r.value.closed && !r.value.poisoned
              && r.value.file == file && r.value.codec == c && r.value.identity == id
  {
    hide Parse, IsHistory, AllValid, Image, CountStream, Codec.Encoded, Body, Codec.Validate, Scanned, Records, IsIndexOf, Guarded;
    ghost var data, p := file.data, Parse(c, id, file.data, []);
    ParseRecords(c, id, data);
    ScannedForOpen(c, id, data, p);
    EmptyEnds(c, id, []);
    if !c.IdentityOk(id) {
      return Err(InvalidIdentity);
    }
    var free := !file.held;
    var holds := file.Hold();
    if !holds {
      return Err(if free then Io else InUse);
    }
    if |file.data| == 0 {
      var ok := file.Sync();
      if !ok {
        file.Drop();
        return Err(Io);
      }
    }
    var scan := RecoverUnderLock(c, id, file);
    if scan.Err? {
      return Err(scan.error);
    }
    var store := Indexed(c, id, file, scan.value, data, p);
    r := Ok(store);
  }

  /**
   Crash safety of the whole store: a machine that stops at any moment of an
   append to the confirmed history h, and comes back on a sound file system,
   opens with exactly h, or with h and the new frame when all of it is there.
   */
  method ReopenAfterCrash(c: Codec, id: Identity, image: seq<byte>, ghost h: seq<Frame>, ghost f: Frame, ghost d: Disk)
    returns (store: Store)
    requires c.IdentityOk(id) && |image| <= MAX_I64
    requires IsHistory(c, id, h) && Follows(c, id, h, f) && AllValid(c, h) && AllValid(c, h + [f])
    requires Appending(c, h, f, d) && CrashLeaves(d, COMMIT_BYTES, image)
    ensures fresh(store) && store.Valid() && store.Settled() && !store.closed && !store.poisoned
    ensures store.history == if image == Image(c, h + [f]) then h + [f] else h
  {
    hide Parse, IsHistory, Image, CountStream, Codec.Encoded, Body, Codec.Validate, Appending, CrashLeaves;
    CrashRecovers(c, id, h, f, d, image);
    var file := new File(image, true);
    var recovered := Open(c, id, file);
    store := recovered.value;
  }

  datatype Outcome = NotStarted | Unknown | Published

  lemma NothingWritten(base: seq<byte>, encoded: seq<byte>, trace: seq<Disk>, locked: bool)
    requires |encoded| >= COMMIT_BYTES
    ensures AllTwoPhase(base, encoded, trace, trace) && TwoPhase(base, encoded, Disk(base, base, locked))
  {
  }

  /** What confirming one more frame does to the history, its image and its counts. */
  lemma HistoryGrows(c: Codec, id: Identity, h: seq<Frame>, f: Frame)
    requires IsHistory(c, id, h) && AllValid(c, h) && Follows(c, id, h, f)
    ensures IsHistory(c, id, h + [f]) && AllValid(c, h + [f])
    ensures Image(c, h + [f]) == Image(c, h) + c.Encoded(f)
    ensures CountStream(h + [f], Stdout) == CountStream(h, Stdout) + if f.stream == Stdout then 1 else 0
    ensures CountStream(h + [f], Stderr) == CountStream(h, Stderr) + if f.stream == Stderr then 1 else 0
  {
    hide Codec.Encoded, Codec.Validate, Body, Image;
    HistoryOfAppend(c, id, h, f);
    ImageOfAppend(c, h, f);
    CountAppended(h, f, Stdout);
    CountAppended(h, f, Stderr);
  }
}
