/**
 The one pass over a workload log that validates every frame of a fixed-size
 prefix, keeps the requested page and, on a writable open, removes an
 unfinished tail.
 */
module LogScan {
  import opened Bytes
  import opened Results
  import opened FrameCodec
  import opened LogHistory
  import opened LogFiles

  datatype Scan = Scan(frames: seq<Frame>, lastCursor: u64, lastSequence: map<Stream, u64>, validSize: nat)

  /** The frames after a cursor, at most limit of them; a zero limit sets no bound. */
  function Page(h: seq<Frame>, after: nat, limit: nat): seq<Frame> {
    if after >= |h| then []
    else if limit == 0 || |h| - after <= limit then h[after..]
    else h[after..after + limit]
  }

  function LastSequences(h: seq<Frame>): map<Stream, nat> {
    map[Stdout := CountStream(h, Stdout), Stderr := CountStream(h, Stderr)]
  }

  /** A stream that has no entry yet stands at zero. */
  function SequenceOf(m: map<Stream, u64>, s: Stream): u64 {
    if s in m then m[s] else 0
  }

  predicate Accepted(e: End, recoverTail: bool) {
    e == Clean || e == Incomplete || (e == TornMarker && recoverTail)
  }

  /** What a scan answers when every primitive succeeds. */
  function Scanned(p: Parsed, after: u64, limit: nat, collect: bool, recoverTail: bool, size: nat): (r: Result<Scan, Error>)
    requires |p.history| <= MAX_U64 && |p.tail| <= size
  {
    if !Accepted(p.end, recoverTail) then Err(if p.end.Broken? then p.end.error else Corrupt)
    else if after > |p.history| then Err(CursorGap(after, |p.history|))
    else Ok(Scan(
      if collect then Page(p.history, after, limit) else [],
      |p.history|,
      map[Stdout := CountStream(p.history, Stdout), Stderr := CountStream(p.history, Stderr)],
      size - |p.tail|))
  }

  /** Cursors are words, so no parse reads more frames than there are cursors. */
  lemma {:induction false} ParsedIsBounded(c: Codec, id: Identity, s: seq<byte>, h: seq<Frame>)
    requires |h| <= MAX_U64
    ensures |Parse(c, id, s, h).history| <= MAX_U64
    decreases |s|
  {
    hide First, Parse, CountStream;
    ParseCases(c, id, s, h);
    if Extends(c, id, s, h) {
      ParsedIsBounded(c, id, s[First(c, s).size..], h + [First(c, s).frame]);
    }
  }

  lemma PageGrows(h: seq<Frame>, f: Frame, after: nat, limit: nat)
    ensures Page(h + [f], after, limit)
         == if |h| + 1 > after && (limit == 0 || |Page(h, after, limit)| < limit)
            then Page(h, after, limit) + [f] else Page(h, after, limit)
  {
  }

  lemma SlicesOf(s: seq<byte>, offset: nat, remaining: nat, from: nat, n: nat)
    requires offset + remaining <= |s| && from + n <= remaining
    ensures s[offset..offset + remaining][from..from + n] == s[offset + from..offset + from + n]
  {
    var t, u := s[offset..offset + remaining][from..from + n], s[offset + from..offset + from + n];
    assert forall i :: 0 <= i < n ==> t[i] == u[i];
  }

  /** The two lengths of a prefix agree and are within bounds. */
  predicate LengthsAgree(prefix: seq<byte>)
    requires |prefix| == PREFIX_BYTES
  {
    && FromBigEndian(prefix[8..16]) == MAX_U64 - FromBigEndian(prefix[0..8])
    && FIXED_BYTES <= FromBigEndian(prefix[0..8]) <= MAX_BODY_BYTES
  }

  /** The verdict on the frame of body length n at an offset. */
  function JudgeAt(c: Codec, data: seq<byte>, offset: nat, n: nat, last: bool): (r: Head)
    requires offset + PREFIX_BYTES + n + COMMIT_BYTES <= |data|
    ensures r != Nothing && r != Short
  {
    var body := offset + PREFIX_BYTES;
    Judge(c, data[offset..offset + 16], data[offset + 16..body], data[body..body + n], data[body + n..body + n + COMMIT_BYTES], last)
  }

  /** First, restated on the runs of bytes that a scan reads one after the other. */
  lemma FirstAt(c: Codec, data: seq<byte>, offset: nat, remaining: nat, prefix: seq<byte>)
    requires PREFIX_BYTES <= remaining && offset + remaining <= |data|
    requires prefix == data[offset..offset + PREFIX_BYTES]
    ensures var n := FromBigEndian(prefix[0..8]);
            First(c, data[offset..offset + remaining])
            == if !LengthsAgree(prefix) then Bad(Corrupt)
               else if PREFIX_BYTES + n + COMMIT_BYTES > remaining then Short
               else JudgeAt(c, data, offset, n, PREFIX_BYTES + n + COMMIT_BYTES == remaining)
  {
    hide Judge, Codec.Decode;
    var s, n := data[offset..offset + remaining], FromBigEndian(prefix[0..8]);
    SlicesOf(data, offset, remaining, 0, 8);
    SlicesOf(data, offset, remaining, 8, 8);
    SlicesOf(data, offset, PREFIX_BYTES, 0, 8);
    SlicesOf(data, offset, PREFIX_BYTES, 8, 8);
    SlicesOf(data, offset, remaining, 0, 16);
    SlicesOf(data, offset, remaining, 16, 32);
    if PREFIX_BYTES + n + COMMIT_BYTES <= remaining {
      SlicesOf(data, offset, remaining, PREFIX_BYTES, n);
      SlicesOf(data, offset, remaining, PREFIX_BYTES + n, COMMIT_BYTES);
    }
  }

  /** Reads body and marker of a frame whose lengths were accepted, and no further than each allows. */
  method JudgeFrame(c: Codec, file: File, offset: nat, prefix: seq<byte>, n: nat, last: bool) returns (r: Result<Head, Error>)
    requires |prefix| == PREFIX_BYTES && n >= FIXED_BYTES
    requires offset + PREFIX_BYTES <= |file.data| && prefix == file.data[offset..offset + PREFIX_BYTES]
    ensures r.Ok? && offset + PREFIX_BYTES + n + COMMIT_BYTES <= |file.data| ==> r.value == JudgeAt(c, file.data, offset, n, last)
    ensures r.Ok? && r.value.Whole? ==>
              && r.value.frame.stream.Valid()
              && r.value.size == PREFIX_BYTES + n + COMMIT_BYTES
              && offset + r.value.size <= |file.data|
    ensures r.Ok? ==> r.value != Nothing && r.value != Short
    ensures file.reliable && offset + PREFIX_BYTES + n + COMMIT_BYTES <= |file.data| ==> r.Ok?
    ensures r.Err? ==> r.error == Corrupt
  {
    hide Codec.Decode, BigEndian;
    SlicesOf(file.data, offset, PREFIX_BYTES, 0, 16);
    SlicesOf(file.data, offset, PREFIX_BYTES, 16, 32);
    var body := ReadFullAt(file, n, offset + PREFIX_BYTES);
    if body.None? {
      return Err(Corrupt);
    }
    var decoded := c.Decode(body.value);
    if decoded.Err? {
      return Ok(Bad(decoded.error));
    }
    var expected := c.sha(prefix[0..16] + body.value);
    var sealed := EqualDigest(prefix[16..48], expected);
    if !sealed {
      return Ok(Bad(Corrupt));
    }
    var marker := ReadFullAt(file, COMMIT_BYTES, offset + PREFIX_BYTES + n);
    if marker.None? {
      return Err(Corrupt);
    }
    var committed := EqualDigest(marker.value[8..40], expected);
    assert marker.value[8..40] == marker.value[8..];
    if marker.value[0..8] != COMMIT_MAGIC || !committed {
      return Ok(if last then Torn else Bad(Corrupt));
    }
    r := Ok(Whole(decoded.value, PREFIX_BYTES + n + COMMIT_BYTES));
  }

  /** Reads what lies at an offset. */
  method ReadHead(c: Codec, file: File, offset: nat, remaining: nat) returns (r: Result<Head, Error>)
    requires remaining > 0
    ensures r.Ok? && offset + remaining <= |file.data| ==> r.value == First(c, file.data[offset..offset + remaining])
    ensures r.Ok? && r.value.Whole? ==>
              && r.value.frame.stream.Valid()
              && 0 < r.value.size <= remaining
              && offset + r.value.size <= |file.data|
    ensures r.Ok? ==> r.value != Nothing
    ensures file.reliable && offset + remaining <= |file.data| ==> r.Ok?
    ensures r.Err? ==> r.error == Corrupt
  {
    if remaining < PREFIX_BYTES {
      return Ok(Short);
    }
    hide First, JudgeAt, FromBigEndian;
    var prefix := ReadFullAt(file, PREFIX_BYTES, offset);
    if prefix.None? {
      return Err(Corrupt);
    }
    if offset + remaining <= |file.data| {
      FirstAt(c, file.data, offset, remaining, prefix.value);
    }
    var n := FromBigEndian(prefix.value[0..8]);
    if !LengthsAgree(prefix.value) {
      return Ok(Bad(Corrupt));
    }
    if PREFIX_BYTES + n + COMMIT_BYTES > remaining {
      return Ok(Short);
    }
    r := JudgeFrame(c, file, offset, prefix.value, n, PREFIX_BYTES + n + COMMIT_BYTES == remaining);
  }

  /** Removes an unfinished tail and makes the removal durable. */
  method TruncateIncompleteTail(file: File, size: nat) returns (ok: bool)
    requires file.Valid() && file.locked && size <= |file.data|
    modifies file`data, file`synced, file`trace
    ensures file.Valid()
    ensures file.data == old(file.data)[..size] || (!ok && file.data == old(file.data))
    ensures ok ==> file.synced == file.data
    ensures !ok ==> file.synced == old(file.synced) || file.synced == file.data
    ensures file.reliable ==> ok
  {
    ok := file.Truncate(size);
    if ok {
      ok := file.Sync();
    }
  }

  /** Where a scan of size bytes stands: h has been read, the rest of the prefix has not. */
  ghost predicate Reached(c: Codec, id: Identity, data: seq<byte>, size: nat, offset: nat, h: seq<Frame>) {
    && offset <= |data| && offset <= size
    && (size <= |data| ==> Parse(c, id, data[..size], []) == Parse(c, id, data[offset..size], h))
  }

  lemma ReachedNext(c: Codec, id: Identity, data: seq<byte>, size: nat, offset: nat, h: seq<Frame>, f: Frame, n: nat)
    requires Reached(c, id, data, size, offset, h) && 0 < n && offset + n <= size && offset + n <= |data|
    requires size <= |data| ==> First(c, data[offset..size]) == Whole(f, n)
    requires f.identity == id && f.cursor == |h| + 1 && f.sequence == CountStream(h, f.stream) + 1
    ensures Reached(c, id, data, size, offset + n, h + [f])
    ensures size <= |data| ==> Extends(c, id, data[offset..size], h)
  {
    hide First, Parse, CountStream;
    if size <= |data| {
      assert data[offset..size][n..] == data[offset + n..size];
      ParseCases(c, id, data[offset..size], h);
    }
  }

  lemma ReachedEnd(c: Codec, id: Identity, data: seq<byte>, size: nat, offset: nat, h: seq<Frame>)
    requires Reached(c, id, data, size, offset, h)
    requires size <= |data| && !Extends(c, id, data[offset..size], h)
    ensures Parse(c, id, data[..size], []) == Parsed(h, data[offset..size], Stop(c, id, data[offset..size]))
  {
    hide First, Parse, Extends;
    ParseCases(c, id, data[offset..size], h);
  }

  lemma CountAppended(h: seq<Frame>, f: Frame, s: Stream)
    ensures CountStream(h + [f], s) == CountStream(h, s) + if f.stream == s then 1 else 0
  {
    assert (h + [f])[..|h|] == h;
  }

  /** What one pass found before it stopped, where it stopped, and on what. */
  datatype Pass = Pass(frames: seq<Frame>, lastCursor: u64, lastSequence: map<Stream, u64>, offset: nat)

  /** The pass has read exactly what parsing the first size bytes reads. */
  ghost predicate Faithful(c: Codec, id: Identity, data: seq<byte>, size: nat, after: u64, limit: nat, collect: bool, pass: Pass, h: seq<Frame>) {
    && Reached(c, id, data, size, pass.offset, h)
    && pass.lastCursor == |h| && pass.lastSequence == LastSequences(h)
    && pass.frames == (if collect then Page(h, after, limit) else [])
  }

  /** A frame that follows is accepted, and kept when it is on the page. */
  function Accept(pass: Pass, frame: Frame, size: nat, after: u64, limit: nat, collect: bool): Pass {
    Pass(if collect && frame.cursor > after && (limit == 0 || |pass.frames| < limit) then pass.frames + [frame] else pass.frames,
         frame.cursor, pass.lastSequence[frame.stream := frame.sequence], pass.offset + size)
  }

  lemma AcceptIsFaithful(c: Codec, id: Identity, data: seq<byte>, size: nat, after: u64, limit: nat, collect: bool,
                         pass: Pass, h: seq<Frame>, f: Frame, n: nat)
    requires Faithful(c, id, data, size, after, limit, collect, pass, h)
    requires 0 < n && pass.offset + n <= size && pass.offset + n <= |data|
    requires size <= |data| ==> First(c, data[pass.offset..size]) == Whole(f, n)
    requires f.stream.Valid() && f.identity == id && f.cursor == |h| + 1 && f.sequence == CountStream(h, f.stream) + 1
    ensures Faithful(c, id, data, size, after, limit, collect, Accept(pass, f, n, after, limit, collect), h + [f])
  {
    hide First, Parse, CountStream, Page, Reached;
    ReachedNext(c, id, data, size, pass.offset, h, f, n);
    CountAppended(h, f, Stdout);
    CountAppended(h, f, Stderr);
    PageGrows(h, f, after, limit);
  }

  lemma FaithfulParts(c: Codec, id: Identity, data: seq<byte>, size: nat, after: u64, limit: nat, collect: bool, pass: Pass, h: seq<Frame>)
    requires Faithful(c, id, data, size, after, limit, collect, pass, h)
    ensures pass.offset <= |data| && pass.offset <= size && Reached(c, id, data, size, pass.offset, h)
    ensures pass.lastCursor == |h| && pass.lastSequence == LastSequences(h)
    ensures pass.frames == (if collect then Page(h, after, limit) else [])
  {
    hide First, Parse;
  }

  /** Why a head cannot go on after what the pass has read: the order of the checks is that of the scan. */
  function Refusal(id: Identity, pass: Pass, head: Head): Option<Error> {
    match head
    case Bad(e) => Some(e)
    case Whole(f, _) =>
      if f.identity != id then Some(IdentityMismatch)
      else if pass.lastCursor == MAX_U64 || f.cursor != pass.lastCursor + 1 then Some(Corrupt)
      else if SequenceOf(pass.lastSequence, f.stream) == MAX_U64 || f.sequence != SequenceOf(pass.lastSequence, f.stream) + 1
      then Some(Corrupt)
      else None
    case _ => None
  }

  lemma RefusalIsStop(c: Codec, id: Identity, data: seq<byte>, size: nat, after: u64, limit: nat, collect: bool,
                      pass: Pass, h: seq<Frame>, head: Head)
    requires Faithful(c, id, data, size, after, limit, collect, pass, h)
    requires head.Whole? ==> head.frame.stream.Valid()
    ensures head.Whole? ==> (Refusal(id, pass, head).None? <==>
              && head.frame.identity == id && head.frame.cursor == |h| + 1
              && head.frame.sequence == CountStream(h, head.frame.stream) + 1)
    ensures size <= |data| && First(c, data[pass.offset..size]) == head && Refusal(id, pass, head).Some?
            ==> Parse(c, id, data[..size], []).end == Broken(Refusal(id, pass, head).value)
  {
    hide First, Parse, CountStream, Faithful, Reached;
    FaithfulParts(c, id, data, size, after, limit, collect, pass, h);
    if size <= |data| && First(c, data[pass.offset..size]) == head && Refusal(id, pass, head).Some? {
      ReachedEnd(c, id, data, size, pass.offset, h);
    }
  }

  lemma StartIsFaithful(c: Codec, id: Identity, data: seq<byte>, size: nat, after: u64, limit: nat, collect: bool)
    ensures Faithful(c, id, data, size, after, limit, collect, Pass([], 0, map[Stdout := 0, Stderr := 0], 0), [])
  {
    hide Parse;
    assert size <= |data| ==> data[..size] == data[0..size];
  }

  /** The validating loop: it goes on over frames that follow, and stops at the end, at an unfinished frame or at an error. */
  method ScanFrames(c: Codec, file: File, id: Identity, size: nat, after: u64, limit: nat, collect: bool)
    returns (r: Result<Pass, Error>, stop: Head, ghost h: seq<Frame>)
    ensures r.Ok? ==> Faithful(c, id, file.data, size, after, limit, collect, r.value, h)
    ensures r.Ok? ==> stop.Short? || stop.Torn? || (stop.Nothing? && r.value.offset == size)
    ensures r.Ok? && size <= |file.data| ==> First(c, file.data[r.value.offset..size]) == stop
    ensures r.Err? && file.reliable && size <= |file.data| ==> Parse(c, id, file.data[..size], []).end == Broken(r.error)
  {
    hide Parse, CountStream, Page, Faithful, Reached;
    var pass := Pass([], 0, map[Stdout := 0, Stderr := 0], 0);
    h := [];
    StartIsFaithful(c, id, file.data, size, after, limit, collect);
    assert size <= |file.data| ==> file.data[size..size] == [] && First(c, []) == Nothing;
    hide First;
    while pass.offset < size
      invariant Faithful(c, id, file.data, size, after, limit, collect, pass, h)
      invariant pass.offset <= size && pass.offset <= |file.data|
      decreases size - pass.offset
    {
      var head := ReadHead(c, file, pass.offset, size - pass.offset);
      if head.Err? {
        return Err(Corrupt), Nothing, h;
      }
      RefusalIsStop(c, id, file.data, size, after, limit, collect, pass, h, head.value);
      var refused := Refusal(id, pass, head.value);
      if refused.Some? {
        return Err(refused.value), Nothing, h;
      }
      if !head.value.Whole? {
        return Ok(pass), head.value, h;
      }
      AcceptIsFaithful(c, id, file.data, size, after, limit, collect, pass, h, head.value.frame, head.value.size);
      pass, h := Accept(pass, head.value.frame, head.value.size, after, limit, collect), h + [head.value.frame];
    }
    r, stop := Ok(pass), Nothing;
  }

  lemma NothingIffEmpty(c: Codec, s: seq<byte>)
    ensures First(c, s) == Nothing <==> s == []
  {
    hide Judge;
  }

  /** How a pass that stopped relates to parsing. */
  lemma PassIsParse(c: Codec, id: Identity, data: seq<byte>, size: nat, after: u64, limit: nat, collect: bool, pass: Pass, stop: Head, h: seq<Frame>)
    requires Faithful(c, id, data, size, after, limit, collect, pass, h) && size <= |data|
    requires First(c, data[pass.offset..size]) == stop
    requires stop.Nothing? || stop.Short? || stop.Torn?
    ensures var p := Parse(c, id, data[..size], []);
            && p.history == h && |p.tail| == size - pass.offset && (p.tail == [] <==> stop == Nothing)
            && p.end == match stop { case Nothing => Clean case Short => Incomplete case _ => TornMarker }
  {
    hide First, Parse, Faithful, Reached;
    FaithfulParts(c, id, data, size, after, limit, collect, pass, h);
    ReachedEnd(c, id, data, size, pass.offset, h);
    NothingIffEmpty(c, data[pass.offset..size]);
  }

  /**
   Validates every frame of the first snapshotSize bytes. On a writable open the
   size is that of the whole file, and an unfinished tail is removed.
   */
  method ScanFramePage(c: Codec, file: File, id: Identity, snapshotSize: int, after: u64, limit: int, collect: bool, recoverTail: bool)
    returns (r: Result<Scan, Error>)
    requires file.Valid() && (recoverTail ==> file.locked && snapshotSize == |file.data|)
    modifies file`data, file`synced, file`trace
    ensures file.Valid()
    ensures !recoverTail ==> file.data == old(file.data) && file.synced == old(file.synced) && file.trace == old(file.trace)
    ensures limit < 0 ==> r == Err(InvalidLimit)
    ensures 0 <= limit && (snapshotSize < 0 || snapshotSize > |old(file.data)|) ==> r.Err?
    ensures 0 <= limit && 0 <= snapshotSize <= |old(file.data)| ==>
              var p := Parse(c, id, old(file.data)[..snapshotSize], []);
              && |p.history| <= MAX_U64
              && (r.Ok? || file.reliable ==> r == Scanned(p, after, limit, collect, recoverTail, snapshotSize))
              && (r.Ok? ==> p.end == Clean || p.end == Incomplete || (p.end == TornMarker && recoverTail))
              && (recoverTail ==> file.data == old(file.data) || file.data == old(file.data)[..snapshotSize - |p.tail|])
              && (file.synced == old(file.synced) || file.synced == file.data)
              && (recoverTail && r.Ok? ==> file.data == old(file.data)[..snapshotSize - |p.tail|])
              && (recoverTail && r.Ok? ==> file.synced == if p.tail != [] then file.data else old(file.synced))
  {
    hide First, Parse, CountStream, Page, Faithful, Reached;
    if limit < 0 {
      return Err(InvalidLimit);
    }
    if snapshotSize < 0 {
      return Err(Corrupt);
    }
    ghost var data := file.data;
    if snapshotSize <= |data| {
      ParsedIsBounded(c, id, data[..snapshotSize], []);
    }
    var passed, stop, h := ScanFrames(c, file, id, snapshotSize, after, limit, collect);
    if passed.Err? {
      return Err(passed.error);
    }
    var pass := passed.value;
    FaithfulParts(c, id, data, snapshotSize, after, limit, collect, pass, h);
    if snapshotSize <= |data| {
      PassIsParse(c, id, data, snapshotSize, after, limit, collect, pass, stop, h);
    }
    if stop == Torn && !recoverTail {
      return Err(Corrupt);
    }
    if stop != Nothing && recoverTail {
      var removed := TruncateIncompleteTail(file, pass.offset);
      if !removed {
        return Err(Io);
      }
    }
    var finalSize := file.Stat();
    if finalSize.None? {
      return Err(Io);
    }
    if recoverTail {
      if finalSize.value != pass.offset {
        return Err(Corrupt);
      }
    } else if finalSize.value < snapshotSize {
      return Err(Corrupt);
    }
    if after > pass.lastCursor {
      return Err(CursorGap(after, pass.lastCursor));
    }
    r := Ok(Scan(pass.frames, pass.lastCursor, pass.lastSequence, pass.offset));
  }
}
