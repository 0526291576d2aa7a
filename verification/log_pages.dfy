/** The positions of a history, its pages, and the checks a client request puts on a page. */
module LogPages {
  import opened Bytes
  import opened Results
  import opened FrameCodec
  import opened LogHistory
  import opened LogScan

  /** The frames of one stream, in order. */
  function OfStream(h: seq<Frame>, s: Stream): (r: seq<Frame>)
    ensures |r| == CountStream(h, s)
  {
    if h == [] then []
    else OfStream(h[..|h| - 1], s) + if h[|h| - 1].stream == s then [h[|h| - 1]] else []
  }

  /** Cursors of a confirmed history are 1, 2, ..., n. */
  lemma CursorsCount(c: Codec, id: Identity, h: seq<Frame>)
    requires IsHistory(c, id, h)
    ensures forall i :: 0 <= i < |h| ==> h[i].cursor == i + 1
  {
    forall i | 0 <= i < |h|
      ensures h[i].cursor == i + 1
    {
      assert Follows(c, id, h[..i], h[i]);
    }
  }

  lemma HistoryPrefix(c: Codec, id: Identity, h: seq<Frame>, n: nat)
    requires IsHistory(c, id, h) && n <= |h|
    ensures IsHistory(c, id, h[..n])
  {
    hide Follows;
    forall i | 0 <= i < n
      ensures Follows(c, id, h[..n][..i], h[..n][i])
    {
      assert h[..n][..i] == h[..i];
      assert Follows(c, id, h[..i], h[i]);
    }
  }

  /** Each stream's frames carry the sequences 1, 2, ... without a gap. */
  lemma {:induction false} StreamSequencesCount(c: Codec, id: Identity, h: seq<Frame>, s: Stream)
    requires IsHistory(c, id, h)
    ensures forall k :: 0 <= k < |OfStream(h, s)| ==> OfStream(h, s)[k].stream == s && OfStream(h, s)[k].sequence == k + 1
  {
    hide Codec.Validate;
    if h != [] {
      HistoryPrefix(c, id, h, |h| - 1);
      StreamSequencesCount(c, id, h[..|h| - 1], s);
      assert Follows(c, id, h[..|h| - 1], h[|h| - 1]);
    }
  }

  /** The last sequences of both streams sum to the last cursor. */
  lemma {:induction false} LastSequencesSum(c: Codec, h: seq<Frame>)
    requires AllValid(c, h)
    ensures CountStream(h, Stdout) + CountStream(h, Stderr) == |h|
  {
    if h != [] {
      LastSequencesSum(c, h[..|h| - 1]);
      assert c.Valid(h[|h| - 1]);
    }
  }

  /** A page holds the frames with a greater cursor, first ones first, as many as the limit allows. */
  lemma PageByCursor(c: Codec, id: Identity, h: seq<Frame>, after: nat, limit: nat)
    requires IsHistory(c, id, h) && after <= |h|
    ensures var p := Page(h, after, limit);
            && (forall f :: f in p ==> f in h && f.cursor > after)
            && (forall f :: f in h && f.cursor > after && (limit == 0 || f.cursor <= after + limit) ==> f in p)
            && (forall i, j :: 0 <= i < j < |p| ==> p[i].cursor < p[j].cursor)
            && (limit > 0 ==> |p| <= limit)
  {
    CursorsCount(c, id, h);
    var p := Page(h, after, limit);
    assert forall i :: 0 <= i < |p| ==> p[i] == h[after + i];
    forall f | f in h && f.cursor > after && (limit == 0 || f.cursor <= after + limit)
      ensures f in p
    {
      var i :| 0 <= i < |h| && h[i] == f;
      assert p[i - after] == f;
    }
  }

  /** The cursors of a history count its frames. */
  predicate Numbered(h: seq<Frame>) {
    forall i :: 0 <= i < |h| ==> h[i].cursor == i + 1
  }

  /** Pages read one after the other, each from the last cursor of the one before. */
  function Pages(h: seq<Frame>, after: nat, limit: nat): seq<Frame>
    requires limit > 0 && Numbered(h)
    decreases |h| - after
  {
    var p := Page(h, after, limit);
    if p == [] then [] else p + Pages(h, p[|p| - 1].cursor, limit)
  }

  /** A page that is not empty, and then the pages after its last cursor. */
  lemma PagesStep(h: seq<Frame>, after: nat, limit: nat, n: nat)
    requires limit > 0 && Numbered(h) && after < n <= |h| && Page(h, after, limit) == h[after..n]
    ensures Pages(h, after, limit) == h[after..n] + Pages(h, n, limit)
  {
    hide Page;
    assert h[after..n][n - after - 1] == h[n - 1];
  }

  lemma PageIsSlice(h: seq<Frame>, after: nat, limit: nat)
    requires limit > 0 && after <= |h|
    ensures var p := Page(h, after, limit);
            after + |p| <= |h| && p == h[after..after + |p|] && (p == [] ==> after == |h|)
  {
  }

  /** Paging with any positive limit gives every remaining frame once, in order. */
  lemma {:induction false} PagesRebuild(h: seq<Frame>, after: nat, limit: nat)
    requires limit > 0 && after <= |h| && Numbered(h)
    ensures Pages(h, after, limit) == h[after..]
    decreases |h| - after
  {
    PageIsSlice(h, after, limit);
    var n := after + |Page(h, after, limit)|;
    hide Page, Numbered;
    if after < n {
      PagesStep(h, after, limit, n);
      hide Pages;
      PagesRebuild(h, n, limit);
      assert h[after..n] + h[n..] == h[after..];
    }
  }

  lemma PagesRebuildHistory(c: Codec, id: Identity, h: seq<Frame>, limit: nat)
    requires IsHistory(c, id, h) && limit > 0
    ensures Numbered(h) && Pages(h, 0, limit) == h
  {
    CursorsCount(c, id, h);
    PagesRebuild(h, 0, limit);
  }

  const MAX_READ_LIMIT: nat := 101

  datatype Refusal = InvalidPageLimit | SourceFailed(error: Error) | TooMany | BadFrame | NotIncreasing | NotContiguous

  /** The sequence last seen on a stream among some frames; zero when there was none. */
  function LastSeen(frames: seq<Frame>, s: Stream): (n: nat) {
    if frames == [] then 0
    else if frames[|frames| - 1].stream == s then frames[|frames| - 1].sequence
    else LastSeen(frames[..|frames| - 1], s)
  }

  /** Frame i of a page is valid, bound to the identity, and in order after the frames before it. */
  predicate InOrder(c: Codec, id: Identity, after: u64, frames: seq<Frame>, i: nat)
    requires i < |frames|
  {
    var f := frames[i];
    && c.Valid(f) && f.identity == id
    && f.cursor > (if i == 0 then after else frames[i - 1].cursor)
    && (LastSeen(frames[..i], f.stream) == 0 || f.sequence == LastSeen(frames[..i], f.stream) + 1)
  }

  /** No frame of the stream lies strictly between two places. */
  predicate NextOfStream(frames: seq<Frame>, i: nat, j: nat)
    requires i < j < |frames|
  {
    frames[i].stream == frames[j].stream && forall k :: i < k < j ==> frames[k].stream != frames[j].stream
  }

  lemma {:induction false} LastSeenIs(frames: seq<Frame>, i: nat, j: nat)
    requires i < j <= |frames|
    requires forall k :: i < k < j ==> frames[k].stream != frames[i].stream
    ensures LastSeen(frames[..j], frames[i].stream) == frames[i].sequence
    decreases j
  {
    assert frames[..j][..j - 1] == frames[..j - 1];
    if j > i + 1 {
      LastSeenIs(frames, i, j - 1);
    }
  }

  /** What the checks of single frames amount to for a page: all bound to the identity, cursors increasing, and each stream counted on by one. */
  lemma OrderedPage(c: Codec, id: Identity, after: u64, frames: seq<Frame>, i: nat, j: nat)
    requires forall k :: 0 <= k < |frames| ==> InOrder(c, id, after, frames, k)
    requires i < j < |frames|
    ensures frames[i].identity == frames[j].identity == id && c.Valid(frames[i]) && c.Valid(frames[j])
    ensures after < frames[i].cursor < frames[j].cursor
    ensures NextOfStream(frames, i, j) ==> frames[j].sequence == frames[i].sequence + 1
  {
    hide LastSeen, Codec.Validate;
    CursorsIncrease(c, id, after, frames, i, j);
    assert InOrder(c, id, after, frames, i) && InOrder(c, id, after, frames, j);
    if NextOfStream(frames, i, j) {
      LastSeenIs(frames, i, j);
      NotZero(c, frames[i]);
    }
  }

  lemma NotZero(c: Codec, f: Frame)
    requires c.Valid(f)
    ensures f.sequence > 0 && f.cursor > 0
  {
  }

  lemma {:induction false} CursorsIncrease(c: Codec, id: Identity, after: u64, frames: seq<Frame>, i: nat, j: nat)
    requires forall k :: 0 <= k < |frames| ==> InOrder(c, id, after, frames, k)
    requires i <= j < |frames|
    ensures after < frames[i].cursor && (i < j ==> frames[i].cursor < frames[j].cursor)
    decreases i + j
  {
    hide LastSeen, Codec.Validate;
    assert InOrder(c, id, after, frames, i) && InOrder(c, id, after, frames, j);
    if i > 0 {
      CursorsIncrease(c, id, after, frames, i - 1, i - 1);
    }
    if i < j {
      CursorsIncrease(c, id, after, frames, i, j - 1);
    }
  }

  /** What the daemon checks of the frames a log source returned before it answers a client. */
  method LogsAfter(c: Codec, id: Identity, after: u64, limit: int, read: Result<seq<Frame>, Error>)
    returns (r: Result<seq<Frame>, Refusal>)
    ensures r.Ok? <==>
            && 1 <= limit <= MAX_READ_LIMIT && read.Ok? && |read.value| <= limit
            && forall i :: 0 <= i < |read.value| ==> InOrder(c, id, after, read.value, i)
    ensures r.Ok? ==> r.value == read.value
  {
    if limit < 1 || limit > MAX_READ_LIMIT {
      return Err(InvalidPageLimit);
    }
    if read.Err? {
      return Err(SourceFailed(read.error));
    }
    var frames := read.value;
    if |frames| > limit {
      return Err(TooMany);
    }
    var previousCursor := after;
    var streamSequences: map<Stream, u64> := map[];
    for i := 0 to |frames|
      invariant previousCursor == if i == 0 then after else frames[i - 1].cursor
      invariant forall s :: SequenceOf(streamSequences, s) == LastSeen(frames[..i], s)
      invariant forall k :: 0 <= k < i ==> InOrder(c, id, after, frames, k)
    {
      var frame := frames[i];
      if !c.Valid(frame) || frame.identity != id {
        assert !InOrder(c, id, after, frames, i);
        return Err(BadFrame);
      }
      if frame.cursor <= previousCursor {
        assert !InOrder(c, id, after, frames, i);
        return Err(NotIncreasing);
      }
      var previous := SequenceOf(streamSequences, frame.stream);
      if previous != 0 && frame.sequence != (if previous == MAX_U64 then 0 else previous + 1) {
        assert !InOrder(c, id, after, frames, i);
        return Err(NotContiguous);
      }
      previousCursor := frame.cursor;
      streamSequences := streamSequences[frame.stream := frame.sequence];
      assert frames[..i + 1][..i] == frames[..i];
    }
    r := Ok(frames);
  }

  lemma NothingSeen(s: Stream)
    ensures LastSeen([], s) == 0
  {
  }

  lemma LastSeenAppended(p: seq<Frame>, f: Frame, s: Stream)
    ensures LastSeen(p + [f], s) == if f.stream == s then f.sequence else LastSeen(p, s)
  {
    assert (p + [f])[..|p|] == p;
  }

  /** The sequence last seen on a page is that stream's count in the history so far, or nothing was seen. */
  lemma {:induction false} LastSeenOnPage(c: Codec, id: Identity, h: seq<Frame>, after: nat, n: nat, s: Stream)
    requires IsHistory(c, id, h) && after <= n <= |h|
    ensures LastSeen(h[after..n], s) == 0 || LastSeen(h[after..n], s) == CountStream(h[..n], s)
    decreases n
  {
    hide Codec.Validate, LastSeen, CountStream;
    if after < n {
      var p, q, f := h[after..n - 1], h[..n - 1], h[n - 1];
      assert Follows(c, id, q, f);
      LastSeenOnPage(c, id, h, after, n - 1, s);
      hide IsHistory;
      assert h[after..n] == p + [f] && h[..n] == q + [f];
      LastSeenAppended(p, f, s);
      CountAppended(q, f, s);
    } else {
      assert h[after..n] == [];
      NothingSeen(s);
    }
  }

  lemma SliceIsInOrder(c: Codec, id: Identity, h: seq<Frame>, after: u64, n: nat, i: nat)
    requires IsHistory(c, id, h) && after + i < n <= |h|
    ensures InOrder(c, id, after, h[after..n], i)
  {
    hide Codec.Validate, CountStream, LastSeen;
    var p, k := h[after..n], after + i;
    assert p[i] == h[k] && p[..i] == h[after..k];
    assert Follows(c, id, h[..k], h[k]);
    if i > 0 {
      assert Follows(c, id, h[..k - 1], h[k - 1]);
    }
    LastSeenOnPage(c, id, h, after, k, p[i].stream);
  }

  /** Every page of a confirmed history passes the daemon's checks. */
  lemma PageIsInOrder(c: Codec, id: Identity, h: seq<Frame>, after: u64, limit: nat)
    requires IsHistory(c, id, h) && after <= |h|
    ensures var p := Page(h, after, limit);
            && (forall i :: 0 <= i < |p| ==> InOrder(c, id, after, p, i))
            && (limit > 0 ==> |p| <= limit)
  {
    hide InOrder, IsHistory;
    var p := Page(h, after, limit);
    forall i | 0 <= i < |p|
      ensures InOrder(c, id, after, p, i)
    {
      assert p == h[after..after + |p|];
      SliceIsInOrder(c, id, h, after, after + |p|, i);
    }
  }
}
