/** The whole life of a log: appends that fail anywhere, power failures, closes and reopenings, in any order. */
module LogLifetime {
  import opened Bytes
  import opened FrameCodec
  import opened LogHistory
  import opened LogFiles
  import opened LogRecovery
  import opened LogStore

  /** Of what is written and what is synchronized, one is always the beginning of the other. */
  lemma PhasesAreComparable(base: seq<byte>, encoded: seq<byte>, d: Disk)
    requires |encoded| >= COMMIT_BYTES && TwoPhase(base, encoded, d)
    ensures d.synced <= d.data || d.data <= d.synced
  {
    var n := |encoded| - COMMIT_BYTES;
    assert base + encoded == base + encoded[..n] + encoded[n..];
  }

  /** A log cut short of its image has lost a frame. */
  lemma CutLosesFrame(c: Codec, id: Identity, g: seq<Frame>, cut: seq<byte>)
    requires IsHistory(c, id, g) && AllValid(c, g)
    requires cut <= Image(c, g) && cut != Image(c, g)
    ensures !(g <= Parse(c, id, cut, []).history)
  {
    hide Parse, IsHistory, AllValid, Image, Codec.Encoded, Body, Codec.Validate;
    assert [] + g == g;
    var n := CutKeepsWholeFrames(c, id, [], g, cut);
    assert [] + g[..n] == g[..n] && g[..|g|] == g;
  }

  /** A log that goes on after its image still reads as at least that history. */
  lemma MoreKeepsFrames(c: Codec, id: Identity, g: seq<Frame>, rest: seq<byte>)
    requires IsHistory(c, id, g) && AllValid(c, g)
    ensures g <= Parse(c, id, Image(c, g) + rest, []).history
  {
    hide Parse, IsHistory, Image, Codec.Encoded, Body, Codec.Validate;
    assert [] + g == g;
    ParseOfImage(c, id, [], g, rest);
    ParsedIsImage(c, id, rest, g);
  }

  /** Exactly when a whole log can lose nothing to a power failure: when all of it has been synchronized. */
  lemma DurableIffSynced(c: Codec, id: Identity, g: seq<Frame>, d: Disk)
    requires IsHistory(c, id, g) && AllValid(c, g) && d.data == Image(c, g)
    requires d.synced <= d.data || d.data <= d.synced
    ensures (forall image :: CrashLeaves(d, COMMIT_BYTES, image) ==> g <= Parse(c, id, image, []).history)
            <==> d.data <= d.synced
  {
    hide Parse, IsHistory, AllValid, Image, Codec.Encoded, Body, Codec.Validate;
    if d.data <= d.synced {
      forall image | CrashLeaves(d, COMMIT_BYTES, image)
        ensures g <= Parse(c, id, image, []).history
      {
        assert image == d.data + image[|d.data|..];
        MoreKeepsFrames(c, id, g, image[|d.data|..]);
      }
    } else {
      assert CrashLeaves(d, COMMIT_BYTES, d.synced);
      CutLosesFrame(c, id, g, d.synced);
    }
  }

  /**
   Where an open reads a frame that it does not make durable: the process was
   killed after the marker was written and before it was synchronized. The log
   reads clean and with the frame, and a power failure may still take it back.
   */
  lemma ReadableFrameLost(c: Codec, id: Identity, h: seq<Frame>, f: Frame) returns (d: Disk, image: seq<byte>)
    requires IsHistory(c, id, h) && Follows(c, id, h, f)
    ensures AllValid(c, h) && Appending(c, h, f, d)
    ensures Parse(c, id, d.data, []) == Parsed(h + [f], [], Clean)
    ensures CrashLeaves(d, COMMIT_BYTES, image) && Parse(c, id, image, []).history == h
  {
    hide Parse, IsHistory, Image, Codec.Encoded, Codec.Prepared, Codec.Marker, Body, Codec.Validate, TwoPhase;
    HistoryIsValid(c, id, h);
    EncodedParts(c, f);
    HistoryGrows(c, id, h, f);
    var base, encoded := Image(c, h), c.Encoded(f);
    var prepared := encoded[..|encoded| - COMMIT_BYTES];
    d, image := Disk(base + encoded, base + prepared, true), base + prepared;
    assert base + encoded == image + encoded[|encoded| - COMMIT_BYTES..];
    TwoPhaseCases(base, encoded, d);
    ParseOfHistory(c, id, h + [f]);
    hide Appending;
    CrashRecovers(c, id, h, f, d, image);
  }

  /** A settled store without a failed append comes back from a power failure exactly as it was. */
  lemma SettledComesBack(d: Disk, image: seq<byte>)
    requires d.synced == d.data && CrashLeaves(d, COMMIT_BYTES, image)
    ensures image == d.data
  {
  }

  /** The confirmed frames and, after a failed append, the one that was in flight. */
  ghost function InFlight(store: Store): seq<Frame>
    reads store
  {
    if store.poisoned && store.unconfirmed.Some? then store.history + [store.unconfirmed.value] else store.history
  }

  /** What a store comes back with when it finds an image: the frame in flight only when all of it is there. */
  ghost function ComesBackWith(store: Store, image: seq<byte>): seq<Frame>
    reads store
  {
    if AllValid(store.codec, InFlight(store)) && image == Image(store.codec, InFlight(store)) then InFlight(store) else store.history
  }

  /** An image opens with exactly h, however far its recovery gets before the machine stops again. */
  ghost predicate Recovers(c: Codec, id: Identity, h: seq<Frame>, image: seq<byte>) {
    && AllValid(c, h) && Image(c, h) <= image
    && forall part :: Image(c, h) <= part <= image ==>
         Recoverable(Parse(c, id, part, []).end) && Parse(c, id, part, []).history == h
  }

  lemma RemainsRecoverWhole(c: Codec, id: Identity, h: seq<Frame>, f: Frame, image: seq<byte>)
    requires IsHistory(c, id, h) && Follows(c, id, h, f) && AllValid(c, h)
    requires Image(c, h) <= image && Remains(c, f, image[|Image(c, h)|..])
    ensures AllValid(c, h + [f])
    ensures Recovers(c, id, if image == Image(c, h + [f]) then h + [f] else h, image)
  {
    hide Parse, IsHistory, Image, Codec.Encoded, Body, Codec.Validate, RemainsOf, CountStream;
    HistoryGrows(c, id, h, f);
    var base, t := Image(c, h), image[|Image(c, h)|..];
    assert image == base + t;
    if image == Image(c, h + [f]) {
      HistoryRecovers(c, id, h + [f]);
    } else {
      forall part | base <= part <= image
        ensures Recoverable(Parse(c, id, part, []).end) && Parse(c, id, part, []).history == h
      {
        var less := part[|base|..];
        assert part == base + less && less <= t;
        RemainsShrink(c, f, t, less);
        RemainsRecover(c, id, h, f, less);
        NotWhole(c, f, t, less);
      }
    }
  }

  /** No part of incomplete remains is the whole encoding. */
  lemma NotWhole(c: Codec, f: Frame, t: seq<byte>, less: seq<byte>)
    requires c.Valid(f) && Remains(c, f, t) && t != c.Encoded(f) && less <= t
    ensures less != c.Encoded(f)
  {
    hide Codec.Encoded, Codec.Validate;
  }

  /** What a power failure finds of a settled store. */
  lemma CrashedRecovers(store: Store, image: seq<byte>)
    requires store.Valid() && store.Settled() && !store.closed
    requires CrashLeaves(store.file.Now(), COMMIT_BYTES, image)
    ensures AllValid(store.codec, InFlight(store))
    ensures Recovers(store.codec, store.identity, ComesBackWith(store, image), image)
    ensures |image| <= MAX_I64
  {
    hide Parse, IsHistory, AllValid, Image, CountStream, Codec.Encoded, Body, Codec.Validate, Appending, CrashLeaves, Recovers, Remains;
    var c, id, h := store.codec, store.identity, store.history;
    if store.poisoned {
      var f := store.unconfirmed.value;
      CrashLeavesRemains(c, h, f, store.file.Now(), image);
      RemainsRecoverWhole(c, id, h, f, image);
      RemainsFit(c, h, f, image);
    } else {
      SettledComesBack(store.file.Now(), image);
      HistoryRecovers(c, id, h);
    }
  }

  lemma HistoryRecovers(c: Codec, id: Identity, h: seq<Frame>)
    requires IsHistory(c, id, h) && AllValid(c, h)
    ensures Recovers(c, id, h, Image(c, h))
  {
    hide Parse, IsHistory, AllValid, Image, Codec.Encoded, Body, Codec.Validate;
    ParseOfHistory(c, id, h);
    forall part | Image(c, h) <= part <= Image(c, h)
      ensures Recoverable(Parse(c, id, part, []).end) && Parse(c, id, part, []).history == h
    {
      assert part == Image(c, h);
    }
  }

  lemma RemainsFit(c: Codec, h: seq<Frame>, f: Frame, image: seq<byte>)
    requires AllValid(c, h) && c.Valid(f) && Image(c, h) <= image && Remains(c, f, image[|Image(c, h)|..])
    ensures |image| <= |Image(c, h)| + EncodedSize(f)
  {
    hide Image, Codec.Validate;
    assert image == Image(c, h) + image[|Image(c, h)|..];
  }

  lemma Comparable(store: Store)
    requires store.Valid() && store.Settled()
    ensures store.file.synced <= store.file.data || store.file.data <= store.file.synced
  {
    hide IsHistory, Image, CountStream, Codec.Encoded, Body, Codec.Validate, TwoPhase;
    if store.poisoned {
      PhasesAreComparable(Image(store.codec, store.history), store.codec.Encoded(store.unconfirmed.value), store.file.Now());
    }
  }

  /** A recovery that was interrupted leaves an image that recovers to the same history. */
  lemma InterruptedRecovers(c: Codec, id: Identity, h: seq<Frame>, image: seq<byte>, d: Disk, again: seq<byte>)
    requires Recovers(c, id, h, image)
    requires d.data == image || d.data == Image(c, h)
    requires d.synced == image || d.synced == d.data
    requires CrashLeaves(d, COMMIT_BYTES, again)
    ensures Recovers(c, id, h, again) && |again| <= |image|
  {
    hide Parse, Image, AllValid;
    assert Image(c, h) <= again <= image;
  }

  /**
   The machine stops, and stops again during any number of recoveries. The store
   that opens at last has exactly the confirmed frames, or those and the frame
   in flight when the first failure left all of it.
   */
  method PowerFailure(store: Store, interruptions: nat) returns (next: Store, image: seq<byte>)
    requires store.Valid() && store.Settled() && !store.closed
    ensures CrashLeaves(store.file.Now(), COMMIT_BYTES, image)
    ensures fresh(next) && fresh(next.file) && next.Valid() && next.Settled() && !next.closed && !next.poisoned
    ensures next.codec == store.codec && next.identity == store.identity
    ensures AllValid(store.codec, InFlight(store)) && next.history == ComesBackWith(store, image)
  {
    hide Parse, IsHistory, AllValid, Image, CountStream, Codec.Encoded, Body, Codec.Validate, Appending, CrashLeaves, Recovers, ComesBackWith;
    Comparable(store);
    image := store.file.Crash(COMMIT_BYTES);
    CrashedRecovers(store, image);
    ghost var h := ComesBackWith(store, image);
    var found := image;
    for i := 0 to interruptions
      invariant Recovers(store.codec, store.identity, h, found) && |found| <= MAX_I64
    {
      found := InterruptedOpen(store.codec, store.identity, found, h);
    }
    next := RecoveredOpen(store.codec, store.identity, found, h);
  }

  lemma RecoversParses(c: Codec, id: Identity, h: seq<Frame>, image: seq<byte>)
    requires Recovers(c, id, h, image)
    ensures AllValid(c, h) && Parse(c, id, image, []).history == h && Recoverable(Parse(c, id, image, []).end)
  {
    hide Parse, Image;
  }

  /** An open on a system that may fail, and that stops again before anyone uses the store. */
  method InterruptedOpen(c: Codec, id: Identity, image: seq<byte>, ghost h: seq<Frame>) returns (again: seq<byte>)
    requires c.IdentityOk(id) && |image| <= MAX_I64 && Recovers(c, id, h, image)
    ensures Recovers(c, id, h, again) && |again| <= MAX_I64
  {
    hide Parse, AllValid, Image, Codec.Encoded, Body, Codec.Validate, CrashLeaves, Recovers;
    RecoversParses(c, id, h, image);
    var sound: bool := *;
    var file := new File(image, sound);
    var _ := Open(c, id, file);
    RecoversBegins(c, id, h, image);
    again := file.Crash(COMMIT_BYTES);
    InterruptedRecovers(c, id, h, image, file.Now(), again);
  }

  lemma RecoversBegins(c: Codec, id: Identity, h: seq<Frame>, image: seq<byte>)
    requires Recovers(c, id, h, image)
    ensures AllValid(c, h) && Image(c, h) <= image
  {
    hide Parse, Image;
  }

  /** An open on a sound system. */
  method RecoveredOpen(c: Codec, id: Identity, image: seq<byte>, ghost h: seq<Frame>) returns (store: Store)
    requires c.IdentityOk(id) && |image| <= MAX_I64 && Recovers(c, id, h, image)
    ensures fresh(store) && fresh(store.file) && store.Valid() && store.Settled() && !store.closed && !store.poisoned
    ensures store.codec == c && store.identity == id && store.history == h
  {
    hide Parse, AllValid, Image, Codec.Encoded, Body, Codec.Validate, Recovers;
    RecoversParses(c, id, h, image);
    var file := new File(image, true);
    var recovered := Open(c, id, file);
    store := recovered.value;
  }

  /**
   Closing on a system that may fail. A failed append may keep the store open;
   otherwise any number of failing openings follow, and the one that succeeds
   finds exactly the confirmed frames.
   */
  method CloseAndReopen(store: Store, failures: nat) returns (next: Store)
    requires store.Valid() && store.Settled() && !store.closed
    modifies store, store.file
    ensures next.Valid() && next.Settled() && !next.closed && (next == store || fresh(next))
    ensures next.codec == store.codec && next.identity == store.identity && next.file == store.file
    ensures next.history == old(store.history)
    ensures next == store ==> store.poisoned && old(store.poisoned)
  {
    hide Parse, IsHistory, AllValid, Image, CountStream, Codec.Encoded, Body, Codec.Validate, Appending, TwoPhase, AllTwoPhase;
    var _ := store.Close();
    if !store.closed {
      return store;
    }
    ClosedHistory(store);
    ghost var image := store.file.data;
    for i := 0 to failures
      invariant store.file.Valid() && !store.file.held
      invariant store.file.data == image && store.file.synced == image
    {
      var early := Open(store.codec, store.identity, store.file);
      if early.Ok? {
        return early.value;
      }
    }
    store.file.reliable := true;
    var reopened := Open(store.codec, store.identity, store.file);
    next := reopened.value;
  }

  lemma ClosedHistory(store: Store)
    requires store.Valid() && store.file.data == Image(store.codec, store.history)
    ensures Parse(store.codec, store.identity, store.file.data, []) == Parsed(store.history, [], Clean)
    ensures |store.file.data| <= MAX_I64
  {
    hide Parse, IsHistory, AllValid, Image, CountStream, Codec.Encoded, Body, Codec.Validate;
    ParseOfHistory(store.codec, store.identity, store.history);
  }

  /** One thing that happens in the life of a log, on a system that may fail at every turn. */
  method Step(store: Store) returns (next: Store)
    requires store.Valid() && store.Settled() && !store.closed
    modifies store, store.file
    ensures next.Valid() && next.Settled() && !next.closed
    ensures next.codec == store.codec && next.identity == store.identity
    ensures next == store || fresh(next)
    ensures next.file == store.file || fresh(next.file)
    ensures old(store.history) <= next.history
  {
    hide Parse, IsHistory, AllValid, Image, CountStream, Codec.Encoded, Body, Codec.Validate, Appending, AppendedInPhases, CrashLeaves;
    var choice: nat, times: nat, sound: bool, payload: seq<byte> := *, *, *, *;
    if choice == 0 {
      var image;
      next, image := PowerFailure(store, times);
    } else {
      store.file.reliable := sound;
      if choice == 1 {
        next := CloseAndReopen(store, times);
      } else {
        next := store;
        var _ := store.Append(if choice == 2 then Stdout else Stderr, payload);
      }
    }
  }

  /** Every history begins with each one before it. */
  predicate OnlyGrows(seen: seq<seq<Frame>>) {
    forall i, j :: 0 <= i < j < |seen| ==> seen[i] <= seen[j]
  }

  lemma GrowsOn(seen: seq<seq<Frame>>, next: seq<Frame>)
    requires |seen| > 0 && seen[|seen| - 1] <= next && OnlyGrows(seen)
    ensures OnlyGrows(seen + [next])
  {
    var n := |seen| - 1;
    forall i | 0 <= i <= n
      ensures seen[i] <= next
    {
      assert seen[i] <= seen[n];
    }
  }

  /** A log that never existed opens as an empty one. */
  method NewLog(c: Codec, id: Identity) returns (store: Store)
    requires c.IdentityOk(id)
    ensures fresh(store) && fresh(store.file) && store.Valid() && store.Settled() && !store.closed
    ensures store.codec == c && store.identity == id && store.history == []
  {
    hide Parse, IsHistory, AllValid, Image, CountStream, Codec.Encoded, Body, Codec.Validate, Appending, TwoPhase;
    var file := new File([], true);
    EmptyEnds(c, id, []);
    var created := Open(c, id, file);
    store := created.value;
  }

  /**
   Over any life of a log no frame that was ever confirmed or read is lost:
   each step's history begins with every earlier one.
   */
  method Lifetime(c: Codec, id: Identity, steps: nat) returns (store: Store, ghost seen: seq<seq<Frame>>)
    requires c.IdentityOk(id)
    ensures store.Valid() && store.codec == c && store.identity == id
    ensures |seen| == steps + 1 && seen[0] == [] && seen[steps] == store.history && OnlyGrows(seen)
  {
    hide Store.Valid, Store.Settled, OnlyGrows;
    store := NewLog(c, id);
    seen := [[]];
    assert OnlyGrows(seen) by { OneGrows([]); }
    for i := 0 to steps
      invariant store.Valid() && store.Settled() && !store.closed && store.codec == c && store.identity == id
      invariant fresh(store) && fresh(store.file)
      invariant |seen| == i + 1 && seen[0] == [] && seen[i] == store.history && OnlyGrows(seen)
    {
      store := Step(store);
      GrowsOn(seen, store.history);
      seen := seen + [store.history];
    }
  }

  lemma OneGrows(h: seq<Frame>)
    ensures OnlyGrows([h])
  {
  }
}
