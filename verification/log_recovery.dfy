/**
 What a writable open finds after an append was cut off: the confirmed history,
 or that history and the new frame when its marker is intact. Never less.
 */
module LogRecovery {
  import opened Bytes
  import opened FrameCodec
  import opened LogHistory
  import opened LogFiles

  /** The ends that a writable open accepts; it removes what is left over. */
  predicate Recoverable(e: End) { !e.Broken? }

  /**
   Bytes that an interrupted append of f leaves after the confirmed ones: cut
   anywhere, with at most a marker's length of arbitrary bytes after the frame data.
   */
  predicate Remains(c: Codec, f: Frame, t: seq<byte>)
    requires c.Valid(f)
  {
    RemainsOf(c.Encoded(f), t)
  }

  predicate RemainsOf(encoded: seq<byte>, t: seq<byte>)
    requires |encoded| >= COMMIT_BYTES
  {
    && |t| <= |encoded|
    && (|t| < PREFIX_BYTES || t <= encoded || encoded[..|encoded| - COMMIT_BYTES] <= t)
  }

  lemma EncodedParts(c: Codec, f: Frame)
    requires c.Valid(f)
    ensures |Body(f)| <= MAX_BODY_BYTES
    ensures |c.Encoded(f)| > PREFIX_BYTES + COMMIT_BYTES
    ensures c.Encoded(f) == c.Prepared(Body(f)) + c.Marker(Body(f))
    ensures c.Encoded(f)[..|c.Encoded(f)| - COMMIT_BYTES] == c.Prepared(Body(f))
  {
    hide Body, Codec.Prepared, Codec.Marker;
    c.DecodeEncoded(f);
  }

  /** A prepared frame with less than a marker after it. */
  lemma FirstOfUnmarked(c: Codec, f: Frame, rest: seq<byte>)
    requires c.Valid(f)
    requires |rest| < COMMIT_BYTES
    ensures |Body(f)| <= MAX_BODY_BYTES
    ensures First(c, c.Prepared(Body(f)) + rest) == Short
  {
    hide Body, Codec.Decode, BigEndian, Judge;
    c.DecodeEncoded(f);
    PreparedParts(c, Body(f), rest);
    LengthsReadBack(c, |Body(f)|, c.Prepared(Body(f)) + rest);
  }

  /** How such remains read: nothing, the whole frame, a torn marker, or too little. */
  lemma FirstOfRemains(c: Codec, f: Frame, t: seq<byte>)
    requires c.Valid(f) && Remains(c, f, t)
    ensures First(c, t) == if t == [] then Nothing
                           else if t == c.Encoded(f) then Whole(f, |t|)
                           else if |t| == |c.Encoded(f)| then Torn
                           else Short
  {
    EncodedParts(c, f);
    if |t| < PREFIX_BYTES {
      hide Codec.Encoded;
      assert First(c, t) == if t == [] then Nothing else Short;
    } else if |t| < |c.Encoded(f)| && t <= c.Encoded(f) {
      hide First, Codec.Encoded;
      FirstOfCut(c, f, t);
    } else {
      hide First, Codec.Encoded, Codec.Prepared, Codec.Marker, Body;
      var p := c.Prepared(Body(f));
      assert p <= t;
      var rest := t[|p|..];
      assert t == p + rest;
      if |rest| < COMMIT_BYTES {
        FirstOfUnmarked(c, f, rest);
      } else {
        FirstOfPrepared(c, f, rest);
        assert rest[..COMMIT_BYTES] == rest;
        assert t == c.Encoded(f) ==> rest == c.Encoded(f)[|p|..] == c.Marker(Body(f));
      }
    }
  }

  /** A confirmed history with the whole of one more frame reads as both. */
  lemma WholeRecovers(c: Codec, id: Identity, h: seq<Frame>, f: Frame)
    requires IsHistory(c, id, h) && Follows(c, id, h, f) && AllValid(c, h) && AllValid(c, h + [f])
    ensures Parse(c, id, Image(c, h) + c.Encoded(f), []) == Parsed(h + [f], [], Clean)
    ensures Image(c, h) + c.Encoded(f) == Image(c, h + [f])
  {
    hide First, Parse, Codec.Encoded, Codec.Validate, Body, IsHistory, Image, CountStream;
    var t := c.Encoded(f);
    ImageOfAppend(c, h, f);
    assert [] + h == h && [] + (h + [f]) == h + [f];
    ParseOfImage(c, id, [], h, t);
    assert t + [] == t;
    ParseStep(c, id, f, [], h);
    EmptyEnds(c, id, h + [f]);
  }

  /**
   The recovery theorem for the bytes: whatever remains of an append of f to the
   confirmed history h, a scan accepts it and finds h, or h and f exactly when
   the whole frame with its marker is there; what is kept ends on a frame boundary.
   */
  lemma RemainsRecover(c: Codec, id: Identity, h: seq<Frame>, f: Frame, t: seq<byte>)
    requires IsHistory(c, id, h) && Follows(c, id, h, f)
    requires Remains(c, f, t)
    ensures AllValid(c, h) && AllValid(c, h + [f])
    ensures var p := Parse(c, id, Image(c, h) + t, []);
            && Recoverable(p.end)
            && p.history == (if t == c.Encoded(f) then h + [f] else h)
            && Image(c, h) + t == Image(c, p.history) + p.tail
  {
    hide First, Parse, Codec.Encoded, Codec.Validate, Body, Remains, Extends, IsHistory, Image, CountStream;
    HistoryIsValid(c, id, h);
    assert [] + h == h;
    ParseOfImage(c, id, [], h, t);
    FirstOfRemains(c, f, t);
    ImageOfAppend(c, h, f);
    if t == c.Encoded(f) {
      WholeRecovers(c, id, h, f);
    } else {
      StopsHere(c, id, t, h);
    }
  }

  lemma EmptyEnds(c: Codec, id: Identity, h: seq<Frame>)
    ensures Parse(c, id, [], h) == Parsed(h, [], Clean)
  {
  }

  lemma StopsHere(c: Codec, id: Identity, t: seq<byte>, h: seq<Frame>)
    requires First(c, t).Nothing? || First(c, t).Short? || First(c, t).Torn?
    ensures Parse(c, id, t, h) == Parsed(h, t, Stop(c, id, t)) && Recoverable(Stop(c, id, t))
  {
    hide First;
  }

  /**
   The two phases of appending f to h: no byte of the marker is written before
   the frame data is on stable storage. The last case is the removal of an
   append that failed.
   */
  ghost predicate Appending(c: Codec, h: seq<Frame>, f: Frame, d: Disk)
    requires AllValid(c, h) && c.Valid(f)
  {
    TwoPhase(Image(c, h), c.Encoded(f), d)
  }

  ghost predicate TwoPhase(base: seq<byte>, encoded: seq<byte>, d: Disk)
    requires |encoded| >= COMMIT_BYTES
  {
    var prepared := encoded[..|encoded| - COMMIT_BYTES];
    || (d.synced == base && base <= d.data <= base + prepared)
    || (d.synced == base + prepared && base + prepared <= d.data <= base + encoded)
    || (d.synced == base + encoded && d.data == base + encoded)
    || (d.data == base && base <= d.synced <= base + encoded)
  }

  lemma DropBase(base: seq<byte>, x: seq<byte>, image: seq<byte>)
    requires base <= image <= base + x
    ensures image[|base|..] <= x
  {
    assert image[|base|..] == (base + x)[|base|..][..|image| - |base|];
  }

  /** A crash in either phase leaves the base and remains of what was being added. */
  lemma TwoPhaseLeaves(base: seq<byte>, encoded: seq<byte>, d: Disk, image: seq<byte>)
    requires |encoded| >= COMMIT_BYTES + PREFIX_BYTES
    requires TwoPhase(base, encoded, d) && CrashLeaves(d, COMMIT_BYTES, image)
    ensures base <= image && RemainsOf(encoded, image[|base|..])
  {
    var prepared := encoded[..|encoded| - COMMIT_BYTES];
    assert base + prepared <= base + encoded;
    if image <= base + encoded {
      DropBase(base, encoded, image);
    } else if d.synced == base + prepared {
      assert base + prepared <= image;
      assert image[|base|..][..|prepared|] == image[..|base + prepared|][|base|..] == prepared;
    } else {
      assert d.synced == base && |image| - |base| <= COMMIT_BYTES;
    }
  }

  /** A crash at any moment of an append leaves the confirmed bytes and remains of the append. */
  lemma CrashLeavesRemains(c: Codec, h: seq<Frame>, f: Frame, d: Disk, image: seq<byte>)
    requires AllValid(c, h) && c.Valid(f)
    requires Appending(c, h, f, d)
    requires CrashLeaves(d, COMMIT_BYTES, image)
    ensures Image(c, h) <= image
    ensures Remains(c, f, image[|Image(c, h)|..])
  {
    hide Codec.Encoded, Codec.Validate, Body, Image, TwoPhase, RemainsOf, CrashLeaves;
    EncodedParts(c, f);
    TwoPhaseLeaves(Image(c, h), c.Encoded(f), d, image);
  }

  /**
   Crash safety: a machine that stops at any moment of an append of f to the
   confirmed history h comes back with exactly h, or with h and f when the
   frame is there in full, and with nothing it has to refuse.
   */
  lemma CrashRecovers(c: Codec, id: Identity, h: seq<Frame>, f: Frame, d: Disk, image: seq<byte>)
    requires IsHistory(c, id, h) && Follows(c, id, h, f)
    requires AllValid(c, h) && Appending(c, h, f, d)
    requires CrashLeaves(d, COMMIT_BYTES, image)
    ensures AllValid(c, h + [f])
    ensures var p := Parse(c, id, image, []);
            && Recoverable(p.end)
            && p.history == (if image == Image(c, h + [f]) then h + [f] else h)
            && image == Image(c, p.history) + p.tail
  {
    hide Parse, Codec.Encoded, Body, Remains, IsHistory, Appending, Recoverable;
    CrashLeavesRemains(c, h, f, d, image);
    var t := image[|Image(c, h)|..];
    assert image == Image(c, h) + t;
    RemainsRecover(c, id, h, f, t);
    ImageOfAppend(c, h, f);
    assert image == Image(c, h + [f]) ==> t == Image(c, h + [f])[|Image(c, h)|..] == c.Encoded(f);
  }

  /** Recovery may itself be interrupted: what its own truncation leaves recovers to the same kind of outcome. */
  lemma RemainsShrink(c: Codec, f: Frame, t: seq<byte>, shorter: seq<byte>)
    requires c.Valid(f) && Remains(c, f, t)
    requires shorter <= t
    ensures Remains(c, f, shorter)
  {
    hide Codec.Encoded;
    EncodedParts(c, f);
  }

  lemma ImageOfOneMore(c: Codec, k: seq<Frame>, n: nat, tail: seq<byte>)
    requires n < |k| && AllValid(c, k)
    ensures AllValid(c, k[1..][..n]) && AllValid(c, k[..n + 1])
    ensures Image(c, k[..n + 1]) + tail == c.Encoded(k[0]) + (Image(c, k[1..][..n]) + tail)
  {
    hide Codec.Encoded, Codec.Validate, Body;
    assert k[..n + 1][0] == k[0] && k[..n + 1][1..] == k[1..][..n];
  }

  /** Parsing cut after h keeps the first n frames of k: those that cut wholly contains. */
  predicate KeepsFirst(c: Codec, id: Identity, h: seq<Frame>, k: seq<Frame>, cut: seq<byte>, n: nat)
    requires AllValid(c, k)
  {
    var p := Parse(c, id, cut, h);
    && n <= |k|
    && (p.end == Clean || p.end == Incomplete)
    && p.history == h + k[..n]
    && cut == Image(c, k[..n]) + p.tail
    && (n == |k| || |p.tail| < |c.Encoded(k[n])|)
  }

  lemma KeepsOneMore(c: Codec, id: Identity, h: seq<Frame>, k: seq<Frame>, rest: seq<byte>, n: nat)
    requires k != [] && AllValid(c, k) && Follows(c, id, h, k[0])
    requires KeepsFirst(c, id, h + [k[0]], k[1..], rest, n)
    ensures KeepsFirst(c, id, h, k, c.Encoded(k[0]) + rest, n + 1)
  {
    hide Parse, Codec.Encoded, Codec.Validate, Body, Image, CountStream;
    ParseStep(c, id, k[0], rest, h);
    ImageOfOneMore(c, k, n, Parse(c, id, rest, h + [k[0]]).tail);
    assert h + [k[0]] + k[1..][..n] == h + k[..n + 1];
  }

  /**
   A kill loses nothing that was written, and a later power failure only a
   suffix: any cut of the image of a history keeps every frame it wholly contains.
   */
  lemma {:induction false} CutKeepsWholeFrames(c: Codec, id: Identity, h: seq<Frame>, k: seq<Frame>, cut: seq<byte>)
    returns (n: nat)
    requires IsHistory(c, id, h + k) && AllValid(c, k)
    requires cut <= Image(c, k)
    ensures KeepsFirst(c, id, h, k, cut, n)
    decreases |k|
  {
    hide First, Parse, Codec.Encoded, Body, IsHistory, Follows, Extends, Codec.Validate;
    if cut == [] || k == [] {
      EmptyEnds(c, id, h);
      assert h + k[..0] == h && k[..0] == [] && Image(c, []) + cut == cut;
      return 0;
    }
    var f, size := k[0], |c.Encoded(k[0])|;
    HistoryContinues(c, id, h, k);
    if |cut| < size {
      assert cut <= c.Encoded(f);
      FirstOfCut(c, f, cut);
      StopsHere(c, id, cut, h);
      assert h + k[..0] == h && k[..0] == [] && Image(c, []) + cut == cut;
      n := 0;
    } else {
      hide KeepsFirst;
      var rest := cut[size..];
      assert cut == c.Encoded(f) + rest && rest <= Image(c, k[1..]);
      var m := CutKeepsWholeFrames(c, id, h + [f], k[1..], rest);
      KeepsOneMore(c, id, h, k, rest, m);
      n := m + 1;
    }
  }
}
