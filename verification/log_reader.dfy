/**
 One writer and any number of readers on one workload log. A reader holds the
 shared commit lock only while it looks at the file size; it reads the bytes
 later, piece by piece, while the writer goes on, fails, truncates and reopens.
 */
module LogReader {
  import opened Bytes
  import opened Results
  import opened FrameCodec
  import opened LogHistory
  import opened LogFiles
  import opened LogScan
  import opened LogStore

  /** A writer holds the exclusive commit lock while it appends, after it failed, and while it recovers. */
  datatype Writer =
    | Idle
    | Appending(frame: Frame, written: nat)
    | Failed(frame: Frame, left: nat)
    | Down
    | Reopening
  {
    predicate HoldsLock() { Appending? || Failed? || Reopening? }
  }

  /** A reader notes, for the statement only, the history that was confirmed when it looked at the size. */
  datatype Reader =
    | Resting
    | Locked(after: u64, limit: nat)
    | Sized(after: u64, limit: nat, size: nat, captured: seq<Frame>)
    | Scanning(after: u64, limit: nat, size: nat, captured: seq<Frame>, read: seq<byte>)
    | Done(after: u64, limit: nat, captured: seq<Frame>, answer: Result<seq<Frame>, Error>)
  {
    predicate HoldsLock() { Locked? || Sized? }
  }

  /** The file, the frames whose appends succeeded, the writer and the readers. */
  datatype State = State(data: seq<byte>, history: seq<Frame>, writer: Writer, readers: map<nat, Reader>)

  /** What a snapshot answers from the bytes it read and the size of the file at the end. */
  function Answer(p: Parsed, size: nat, finalSize: nat, after: u64, limit: nat): Result<seq<Frame>, Error> {
    if !Accepted(p.end, false) then Err(if p.end.Broken? then p.end.error else Corrupt)
    else if finalSize < size then Err(Corrupt)
    else if after > |p.history| then Err(CursorGap(after, |p.history|))
    else Ok(Page(p.history, after, limit))
  }

  /** With a file that did not shrink, that is the scan's own answer. */
  lemma AnswerIsScan(p: Parsed, size: nat, finalSize: nat, after: u64, limit: nat)
    requires |p.history| <= MAX_U64 && |p.tail| <= size <= finalSize
    ensures var s, a := Scanned(p, after, limit, true, false, size), Answer(p, size, finalSize, after, limit);
            if s.Ok? then a == Ok(s.value.frames) else a == Err(s.error)
  {
  }

  datatype Event =
    | Begin(frame: Frame)
    | Write(n: nat)
    | Publish
    | Fail
    | TruncateLeft
    | CloseIdle
    | CloseFailed
    | Reopen
    | Recover
    | Ask(r: nat, after: u64, limit: nat)
    | Size(r: nat)
    | Unlock(r: nat)
    | ReadSome(r: nat, n: nat)
    | Finish(r: nat)
    | GiveUp(r: nat, error: Error)

  predicate NoReaderLock(s: State) {
    forall r :: r in s.readers ==> !s.readers[r].HoldsLock()
  }

  function ReaderOf(s: State, r: nat): Reader {
    if r in s.readers then s.readers[r] else Resting
  }

  /** Steps of the writer. */
  predicate WriterStep(c: Codec, id: Identity, s: State, e: Event, t: State) {
    && t.readers == s.readers
    && match e
       case Begin(f) =>
         && s.writer == Idle && NoReaderLock(s) && Follows(c, id, s.history, f)
         && t == s.(writer := Appending(f, 0))
       case Write(n) =>
         && s.writer.Appending? && c.Valid(s.writer.frame) && s.writer.written + n <= |c.Encoded(s.writer.frame)|
         && var k := s.writer.written;
         && t == s.(data := s.data + c.Encoded(s.writer.frame)[k..k + n], writer := s.writer.(written := k + n))
       case Publish =>
         && s.writer.Appending? && c.Valid(s.writer.frame) && s.writer.written == |c.Encoded(s.writer.frame)|
         && t == s.(history := s.history + [s.writer.frame], writer := Idle)
       case Fail =>
         && s.writer.Appending?
         && t == s.(writer := Writer.Failed(s.writer.frame, s.writer.written))
       case TruncateLeft =>
         && s.writer.Failed? && s.writer.left <= |s.data|
         && t == s.(data := s.data[..|s.data| - s.writer.left], writer := s.writer.(left := 0))
       case CloseIdle => s.writer == Idle && t == s.(writer := Down)
       case CloseFailed => s.writer.Failed? && s.writer.left == 0 && t == s.(writer := Down)
       case Reopen => s.writer == Down && NoReaderLock(s) && t == s.(writer := Reopening)
       case Recover =>
         var p := Parse(c, id, s.data, []);
         && s.writer == Reopening
         && t == s.(data := s.data[..|s.data| - |p.tail|], history := p.history, writer := Idle)
       case _ => false
  }

  /** Steps of reader r: each reads the file as it is at that moment. */
  predicate ReaderStep(c: Codec, id: Identity, s: State, e: Event, t: State) {
    match e
    case Ask(r, after, limit) =>
      && (ReaderOf(s, r).Resting? || ReaderOf(s, r).Done?) && !s.writer.HoldsLock()
      && t == s.(readers := s.readers[r := Locked(after, limit)])
    case Size(r) =>
      var q := ReaderOf(s, r);
      && q.Locked?
      && t == s.(readers := s.readers[r := Sized(q.after, q.limit, |s.data|, s.history)])
    case Unlock(r) =>
      var q := ReaderOf(s, r);
      && q.Sized?
      && t == s.(readers := s.readers[r := Scanning(q.after, q.limit, q.size, q.captured, [])])
    case ReadSome(r, n) =>
      var q := ReaderOf(s, r);
      && q.Scanning? && |q.read| + n <= q.size && |q.read| + n <= |s.data|
      && t == s.(readers := s.readers[r := q.(read := q.read + s.data[|q.read|..|q.read| + n])])
    case Finish(r) =>
      var q := ReaderOf(s, r);
      && q.Scanning? && |q.read| == q.size
      && var answer := Answer(Parse(c, id, q.read, []), q.size, |s.data|, q.after, q.limit);
         t == s.(readers := s.readers[r := Done(q.after, q.limit, q.captured, answer)])
    case GiveUp(r, error) =>
      && ReaderOf(s, r) != Resting
      && t == s.(readers := s.readers - {r})
    case _ => false
  }

  predicate Step(c: Codec, id: Identity, s: State, e: Event, t: State) {
    WriterStep(c, id, s, e, t) || ReaderStep(c, id, s, e, t)
  }

  /** A log at rest: a closed file that records some history, and no reader yet. */
  ghost predicate Init(c: Codec, id: Identity, s: State) {
    && IsHistory(c, id, s.history) && AllValid(c, s.history) && s.data == Image(c, s.history)
    && s.writer == Down && s.readers == map[]
  }

  /** What the writer has put on file beyond the confirmed bytes. */
  predicate WriterInv(c: Codec, id: Identity, s: State) {
    && IsHistory(c, id, s.history) && AllValid(c, s.history)
    && match s.writer
       case Appending(f, n) =>
         Follows(c, id, s.history, f) && n <= |c.Encoded(f)| && s.data == Image(c, s.history) + c.Encoded(f)[..n]
       case Failed(f, n) =>
         Follows(c, id, s.history, f) && n <= |c.Encoded(f)| && s.data == Image(c, s.history) + c.Encoded(f)[..n]
       case _ => s.data == Image(c, s.history)
  }

  /** A history that was confirmed earlier. */
  predicate Earlier(c: Codec, id: Identity, h: seq<Frame>, s: State) {
    h <= s.history && IsHistory(c, id, h) && AllValid(c, h) && Image(c, h) <= s.data
  }

  predicate ReaderInv(c: Codec, id: Identity, s: State, q: Reader) {
    match q
    case Resting => true
    case Locked(_, _) => !s.writer.HoldsLock()
    case Sized(_, _, size, h) => !s.writer.HoldsLock() && Earlier(c, id, h, s) && size == |Image(c, h)|
    case Scanning(_, _, size, h, read) => Earlier(c, id, h, s) && size == |Image(c, h)| && read <= Image(c, h)
    case Done(after, limit, h, answer) =>
      answer == if after > |h| then Err(CursorGap(after, |h|)) else Ok(Page(h, after, limit))
  }

  predicate Inv(c: Codec, id: Identity, s: State) {
    && WriterInv(c, id, s)
    && forall r :: r in s.readers ==> ReaderInv(c, id, s, s.readers[r])
  }

  lemma WriterInvKept(c: Codec, id: Identity, s: State, e: Event, t: State)
    requires WriterInv(c, id, s) && WriterStep(c, id, s, e, t)
    ensures WriterInv(c, id, t)
  {
    hide IsHistory, Image, Codec.Encoded, Body, Codec.Validate, Parse, CountStream;
    match e
    case Begin(f) =>
      assert s.data == Image(c, s.history) + c.Encoded(f)[..0];
    case Write(n) =>
      var x, k := c.Encoded(s.writer.frame), s.writer.written;
      assert x[..k] + x[k..k + n] == x[..k + n];
      assert s.data + x[k..k + n] == Image(c, s.history) + x[..k + n];
    case Publish =>
      var x := c.Encoded(s.writer.frame);
      assert x[..|x|] == x;
      HistoryGrows(c, id, s.history, s.writer.frame);
    case TruncateLeft =>
      var x := c.Encoded(s.writer.frame);
      assert x[..0] == [] && t.data == Image(c, s.history) + x[..0];
    case CloseFailed =>
      assert s.data == Image(c, s.history);
    case Recover =>
      ParseOfHistory(c, id, s.history);
      assert t.data == s.data;
    case _ =>
  }

  lemma ImageOfPrefix(c: Codec, h: seq<Frame>, g: seq<Frame>)
    requires AllValid(c, h) && AllValid(c, g) && h <= g
    ensures Image(c, h) <= Image(c, g)
  {
    hide Codec.Encoded, Body, Codec.Validate, Image;
    assert g == h + g[|h|..];
    ImageOfConcat(c, h, g[|h|..]);
  }

  lemma ConfirmedBytes(c: Codec, id: Identity, s: State)
    requires WriterInv(c, id, s)
    ensures Image(c, s.history) <= s.data
    ensures !s.writer.Appending? && !s.writer.Failed? ==> s.data == Image(c, s.history)
  {
    hide Codec.Encoded, Body, Codec.Validate, Image;
  }

  lemma HistoryNeverShrinks(c: Codec, id: Identity, s: State, e: Event, t: State)
    requires WriterInv(c, id, s) && Step(c, id, s, e, t)
    ensures s.history <= t.history
  {
    hide IsHistory, Codec.Encoded, Body, Codec.Validate, Parse, CountStream, Image;
    if e.Recover? {
      ParseOfHistory(c, id, s.history);
    }
  }

  /** The writer never moves confirmed bytes, so a history once confirmed stays readable. */
  lemma EarlierKept(c: Codec, id: Identity, s: State, e: Event, t: State, h: seq<Frame>)
    requires WriterInv(c, id, s) && WriterStep(c, id, s, e, t)
    requires Earlier(c, id, h, s)
    ensures Earlier(c, id, h, t)
  {
    hide WriterInv, WriterStep, IsHistory, Image, Codec.Encoded, Body, Codec.Validate;
    WriterInvKept(c, id, s, e, t);
    HistoryNeverShrinks(c, id, s, e, t);
    WriterInvValid(c, id, t);
    ImageOfPrefix(c, h, t.history);
    ConfirmedBytes(c, id, t);
  }

  lemma WriterInvValid(c: Codec, id: Identity, s: State)
    requires WriterInv(c, id, s)
    ensures IsHistory(c, id, s.history) && AllValid(c, s.history)
  {
  }

  /** A writer that takes the lock finds no reader holding it. */
  lemma LockExcludes(c: Codec, id: Identity, s: State, e: Event, t: State, q: Reader)
    requires WriterInv(c, id, s) && WriterStep(c, id, s, e, t)
    requires ReaderInv(c, id, s, q) && (NoReaderLock(s) ==> !q.HoldsLock())
    ensures ReaderInv(c, id, t, q)
  {
    if q.Sized? || q.Scanning? {
      EarlierKept(c, id, s, e, t, q.captured);
    }
    hide WriterInv, Earlier, Image, IsHistory, Parse, Page;
  }

  /** The snapshot itself: what it read is the image of the history it captured. */
  lemma SnapshotIsPage(c: Codec, id: Identity, h: seq<Frame>, read: seq<byte>, finalSize: nat, after: u64, limit: nat)
    requires IsHistory(c, id, h) && AllValid(c, h)
    requires read <= Image(c, h) && |read| == |Image(c, h)| && finalSize >= |Image(c, h)|
    ensures Answer(Parse(c, id, read, []), |Image(c, h)|, finalSize, after, limit)
         == if after > |h| then Err(CursorGap(after, |h|)) else Ok(Page(h, after, limit))
  {
    hide IsHistory, Image, Parse, Page;
    assert read == Image(c, h);
    ParseOfHistory(c, id, h);
  }

  lemma ReadMore(image: seq<byte>, data: seq<byte>, read: seq<byte>, n: nat)
    requires read <= image <= data && |read| + n <= |image|
    ensures read + data[|read|..|read| + n] <= image
  {
    assert image == data[..|image|];
  }

  /** A reader's own step keeps what is claimed of it. */
  lemma ReaderInvKept(c: Codec, id: Identity, s: State, e: Event, t: State, r: nat)
    requires Inv(c, id, s) && ReaderStep(c, id, s, e, t) && r in t.readers
    ensures ReaderInv(c, id, t, t.readers[r])
  {
    hide IsHistory, Image, Codec.Encoded, Body, Codec.Validate, Parse, Page;
    ConfirmedBytes(c, id, s);
    match e
    case ReadSome(k, n) =>
      if k == r {
        var q := s.readers[r];
        ReadMore(Image(c, q.captured), s.data, q.read, n);
      }
    case Finish(k) =>
      if k == r {
        var q := s.readers[r];
        SnapshotIsPage(c, id, q.captured, q.read, |s.data|, q.after, q.limit);
      }
    case _ =>
  }

  /** Every step of the writer or of a reader keeps the invariant. */
  lemma InvKept(c: Codec, id: Identity, s: State, e: Event, t: State)
    requires Inv(c, id, s) && Step(c, id, s, e, t)
    ensures Inv(c, id, t)
  {
    hide WriterInv, ReaderInv, ReaderStep, WriterStep;
    if WriterStep(c, id, s, e, t) {
      WriterInvKept(c, id, s, e, t);
      ReadersUnchanged(c, id, s, e, t);
      forall r | r in t.readers
        ensures ReaderInv(c, id, t, t.readers[r])
      {
        LockExcludes(c, id, s, e, t, s.readers[r]);
      }
    } else {
      WriterUnchanged(c, id, s, e, t);
      forall r | r in t.readers
        ensures ReaderInv(c, id, t, t.readers[r])
      {
        ReaderInvKept(c, id, s, e, t, r);
      }
    }
  }

  lemma ReadersUnchanged(c: Codec, id: Identity, s: State, e: Event, t: State)
    requires WriterStep(c, id, s, e, t)
    ensures t.readers == s.readers
  {
  }

  lemma WriterUnchanged(c: Codec, id: Identity, s: State, e: Event, t: State)
    requires WriterInv(c, id, s) && ReaderStep(c, id, s, e, t)
    ensures WriterInv(c, id, t)
  {
    hide IsHistory, Image, Codec.Encoded, Body, Codec.Validate, Parse, Page;
  }

  /** What a state of the disk means while the open writer appends f to h. */
  function Seen(c: Codec, h: seq<Frame>, f: Frame, d: Disk, readers: map<nat, Reader>): State
    requires AllValid(c, h) && Image(c, h) <= d.data
  {
    if d.locked then State(d.data, h, Appending(f, |d.data| - |Image(c, h)|), readers)
    else State(d.data, h + [f], Idle, readers)
  }

  /**
   An append of the store is made of this writer's steps: every state its disk
   goes through follows from the one before it by taking the lock, by writing
   under it or by publishing, whatever the readers are at.
   */
  lemma AppendRefines(c: Codec, id: Identity, h: seq<Frame>, f: Frame, before: seq<Disk>, after: seq<Disk>, i: nat, readers: map<nat, Reader>)
    requires IsHistory(c, id, h) && AllValid(c, h) && Follows(c, id, h, f)
    requires PublishedInOrder(Image(c, h), c.Encoded(f), before, after) && |before| <= i < |after|
    ensures Image(c, h) <= after[i].data
    ensures i == |before| ==>
              var s := State(Image(c, h), h, Idle, readers);
              NoReaderLock(s) ==> WriterStep(c, id, s, Begin(f), Seen(c, h, f, after[i], readers))
    ensures i > |before| ==>
              && Image(c, h) <= after[i - 1].data
              && var e := if after[i].locked then Write(|after[i].data| - |after[i - 1].data|) else Publish;
                 WriterStep(c, id, Seen(c, h, f, after[i - 1], readers), e, Seen(c, h, f, after[i], readers))
  {
    hide IsHistory, Image, Codec.Encoded, Body, Codec.Validate, Parse, CountStream;
    if i > |before| {
      var base, x, d, e := Image(c, h), c.Encoded(f), after[i - 1].data, after[i].data;
      assert base <= d <= e <= base + x;
      assert e == d + x[|d| - |base|..|e| - |base|];
    } else {
      assert after[i].locked && after[i].data == Image(c, h);
    }
  }

  /** What a state of the disk means while a failed store closes. */
  function SeenFailed(c: Codec, h: seq<Frame>, f: Frame, d: Disk, readers: map<nat, Reader>): State
    requires AllValid(c, h) && Image(c, h) <= d.data
  {
    State(d.data, h, if d.locked then Writer.Failed(f, |d.data| - |Image(c, h)|) else Down, readers)
  }

  /** So is the close of a failed store: its disk stays, is cut back under the lock, or is let go. */
  lemma CloseRefines(c: Codec, id: Identity, h: seq<Frame>, f: Frame, before: seq<Disk>, after: seq<Disk>, i: nat, readers: map<nat, Reader>)
    requires AllValid(c, h) && ClearedInOrder(Image(c, h), before, after) && |before| <= i < |after|
    requires Image(c, h) <= after[i - 1].data
    ensures Image(c, h) <= after[i].data
    ensures var s, t := SeenFailed(c, h, f, after[i - 1], readers), SeenFailed(c, h, f, after[i], readers);
            s == t || WriterStep(c, id, s, TruncateLeft, t) || WriterStep(c, id, s, CloseFailed, t)
  {
    hide IsHistory, Image, Codec.Encoded, Body, Codec.Validate, Parse, CountStream;
    var base, d := Image(c, h), after[i - 1].data;
    assert d[..|base|] == base;
  }

  /** A run: states joined by steps. */
  ghost predicate IsRun(c: Codec, id: Identity, run: seq<State>, events: seq<Event>) {
    && |run| == |events| + 1
    && Init(c, id, run[0])
    && forall i :: 0 <= i < |events| ==> Step(c, id, run[i], events[i], run[i + 1])
  }

  lemma {:induction false} RunKeepsInv(c: Codec, id: Identity, run: seq<State>, events: seq<Event>, i: nat)
    requires IsRun(c, id, run, events) && i < |run|
    ensures Inv(c, id, run[i])
  {
    hide Step, IsHistory, Image, Codec.Validate;
    if i > 0 {
      RunKeepsInv(c, id, run, events, i - 1);
      assert Step(c, id, run[i - 1], events[i - 1], run[i]);
      InvKept(c, id, run[i - 1], events[i - 1], run[i]);
    }
  }

  /**
   Reader isolation: when reader r looks at the size at step i and finishes at
   step j without starting over, its answer is the page of exactly the history
   confirmed at step i, whatever the writer and the other readers did meanwhile.
   */
  lemma ReaderIsolation(c: Codec, id: Identity, run: seq<State>, events: seq<Event>, i: nat, j: nat, r: nat)
    requires IsRun(c, id, run, events) && i < j < |events|
    requires events[i] == Size(r) && events[j] == Finish(r)
    requires forall k :: i < k < j ==> events[k] != Size(r)
    ensures r in run[j + 1].readers && run[j + 1].readers[r].Done?
    ensures var q := run[j + 1].readers[r]; var h := run[i].history;
            q.answer == if q.after > |h| then Err(CursorGap(q.after, |h|)) else Ok(Page(h, q.after, q.limit))
  {
    hide Parse, Page, IsHistory, Image, Inv;
    RunKeepsInv(c, id, run, events, j + 1);
    CaptureKept(c, id, run, events, i, j, r);
    assert Step(c, id, run[j], events[j], run[j + 1]);
    DoneInv(c, id, run[j + 1], r);
  }

  lemma DoneInv(c: Codec, id: Identity, s: State, r: nat)
    requires Inv(c, id, s) && r in s.readers
    ensures ReaderInv(c, id, s, s.readers[r])
  {
  }

  /** Between looking at the size and finishing, a reader's captured history is the one it saw. */
  lemma {:induction false} CaptureKept(c: Codec, id: Identity, run: seq<State>, events: seq<Event>, i: nat, j: nat, r: nat)
    requires IsRun(c, id, run, events) && i < j < |run|
    requires events[i] == Size(r)
    requires forall k :: i < k < j ==> events[k] != Size(r)
    ensures ReaderOf(run[j], r).Sized? || ReaderOf(run[j], r).Scanning? || ReaderOf(run[j], r).Done? ==>
              ReaderOf(run[j], r).captured == run[i].history
    decreases j
  {
    hide Parse, Page, Answer, IsHistory, Image;
    assert Step(c, id, run[j - 1], events[j - 1], run[j]);
    if j > i + 1 {
      CaptureKept(c, id, run, events, i, j - 1, r);
    }
  }

  /** A snapshot that has begun is never held up: from every state of every run it can go on to its answer in at most four steps of its own. */
  lemma SnapshotGoesOn(c: Codec, id: Identity, run: seq<State>, events: seq<Event>, i: nat, r: nat) returns (e: Event, t: State)
    requires IsRun(c, id, run, events) && i < |run|
    requires r in run[i].readers && !run[i].readers[r].Resting? && !run[i].readers[r].Done?
    ensures ReaderStep(c, id, run[i], e, t) && r in t.readers
    ensures match run[i].readers[r]
            case Locked(_, _) => t.readers[r].Sized?
            case Sized(_, _, _, _) => t.readers[r].Scanning?
            case Scanning(_, _, size, _, read) =>
              if |read| < size then t.readers[r].Scanning? && |t.readers[r].read| == size else t.readers[r].Done?
            case _ => false
  {
    hide Parse, Page, IsHistory, Image, Codec.Encoded, Body, Codec.Validate, Answer;
    RunKeepsInv(c, id, run, events, i);
    var s := run[i];
    var q := s.readers[r];
    assert ReaderInv(c, id, s, q);
    if q.Locked? {
      e, t := Size(r), s.(readers := s.readers[r := Sized(q.after, q.limit, |s.data|, s.history)]);
    } else if q.Sized? {
      e, t := Unlock(r), s.(readers := s.readers[r := Scanning(q.after, q.limit, q.size, q.captured, [])]);
    } else if |q.read| < q.size {
      var n := q.size - |q.read|;
      e, t := ReadSome(r, n), s.(readers := s.readers[r := q.(read := q.read + s.data[|q.read|..|q.read| + n])]);
    } else {
      var answer := Answer(Parse(c, id, q.read, []), q.size, |s.data|, q.after, q.limit);
      e, t := Finish(r), s.(readers := s.readers[r := Done(q.after, q.limit, q.captured, answer)]);
    }
  }

  /** A log whose writer is gone opens again with the same history as soon as no reader looks at its size. */
  lemma ReopensWithHistory(c: Codec, id: Identity, run: seq<State>, events: seq<Event>, i: nat) returns (held: State, t: State)
    requires IsRun(c, id, run, events) && i < |run| && run[i].writer == Down && NoReaderLock(run[i])
    ensures WriterStep(c, id, run[i], Reopen, held) && WriterStep(c, id, held, Recover, t)
    ensures t == run[i].(writer := Idle)
  {
    hide Parse, IsHistory, Image, Codec.Encoded, Body, Codec.Validate;
    RunKeepsInv(c, id, run, events, i);
    var s := run[i];
    ParseOfHistory(c, id, s.history);
    held := s.(writer := Reopening);
    t := s.(writer := Idle);
    assert s.data[..|s.data|] == s.data;
  }
}
