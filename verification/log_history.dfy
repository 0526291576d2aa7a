/**
 What a workload log means: a history of frames, the bytes that record it, and
 a parser of bytes that may end in the remains of an interrupted append.
 */
module LogHistory {
  import opened Bytes
  import opened FrameCodec

  function CountStream(h: seq<Frame>, s: Stream): (n: nat)
    ensures n <= |h|
  {
    if h == [] then 0
    else CountStream(h[..|h| - 1], s) + if h[|h| - 1].stream == s then 1 else 0
  }

  /** Frame f may be the one appended to history h. */
  predicate Follows(c: Codec, id: Identity, h: seq<Frame>, f: Frame) {
    c.Valid(f) && f.identity == id && f.cursor == |h| + 1 && f.sequence == CountStream(h, f.stream) + 1
  }

  /** A confirmed history: every frame followed the ones before it. */
  predicate IsHistory(c: Codec, id: Identity, h: seq<Frame>) {
    forall i :: 0 <= i < |h| ==> Follows(c, id, h[..i], h[i])
  }

  predicate AllValid(c: Codec, h: seq<Frame>) {
    forall i :: 0 <= i < |h| ==> c.Valid(h[i])
  }

  /** The bytes of a sequence of frames, end to end. */
  function Image(c: Codec, h: seq<Frame>): (s: seq<byte>)
    requires AllValid(c, h)
  {
    if h == [] then [] else c.Encoded(h[0]) + Image(c, h[1..])
  }

  lemma {:induction false} ImageOfConcat(c: Codec, g: seq<Frame>, h: seq<Frame>)
    requires AllValid(c, g) && AllValid(c, h)
    ensures AllValid(c, g + h)
    ensures Image(c, g + h) == Image(c, g) + Image(c, h)
  {
    hide Codec.Encoded, Body, Codec.Validate;
    if g == [] {
      assert g + h == h;
    } else {
      assert (g + h)[1..] == g[1..] + h;
      ImageOfConcat(c, g[1..], h);
      assert c.Encoded(g[0]) + (Image(c, g[1..]) + Image(c, h)) == c.Encoded(g[0]) + Image(c, g[1..]) + Image(c, h);
    }
  }

  lemma ImageOfAppend(c: Codec, h: seq<Frame>, f: Frame)
    requires AllValid(c, h) && c.Valid(f)
    ensures AllValid(c, h + [f])
    ensures Image(c, h + [f]) == Image(c, h) + c.Encoded(f)
  {
    ImageOfConcat(c, h, [f]);
    assert Image(c, [f]) == c.Encoded(f) + [];
  }

  lemma HistoryIsValid(c: Codec, id: Identity, h: seq<Frame>)
    requires IsHistory(c, id, h)
    ensures AllValid(c, h)
  {
    forall i | 0 <= i < |h|
      ensures c.Valid(h[i])
    {
      assert Follows(c, id, h[..i], h[i]);
    }
  }

  /** A history grows exactly by frames that follow it. */
  lemma HistoryOfAppend(c: Codec, id: Identity, h: seq<Frame>, f: Frame)
    ensures IsHistory(c, id, h + [f]) <==> IsHistory(c, id, h) && Follows(c, id, h, f)
  {
    var g := h + [f];
    assert forall i :: 0 <= i <= |h| ==> g[..i] == h[..i];
    assert h[..|h|] == h;
    if IsHistory(c, id, g) {
      assert Follows(c, id, g[..|h|], g[|h|]);
      forall i | 0 <= i < |h|
        ensures Follows(c, id, h[..i], h[i])
      {
        assert Follows(c, id, g[..i], g[i]);
      }
    }
  }

  /** What the front of some bytes is. */
  datatype Head = Nothing | Short | Torn | Bad(error: Error) | Whole(frame: Frame, size: nat)

  /** What a complete frame amounts to, given its parts and whether anything follows it. */
  function Judge(c: Codec, lengths: seq<byte>, digest: seq<byte>, body: seq<byte>, marker: seq<byte>, last: bool): (r: Head)
    requires |marker| == COMMIT_BYTES
    ensures r.Whole? ==> r.size == PREFIX_BYTES + |body| + COMMIT_BYTES
    ensures r != Nothing && r != Short
  {
    if c.Decode(body).Err? then Bad(c.Decode(body).error)
    else if digest != c.sha(lengths + body) then Bad(Corrupt)
    else if marker[..8] == COMMIT_MAGIC && marker[8..] == c.sha(lengths + body) then
      Whole(c.Decode(body).value, PREFIX_BYTES + |body| + COMMIT_BYTES)
    else if last then Torn
    else Bad(Corrupt)
  }

  function First(c: Codec, s: seq<byte>): (r: Head)
    ensures r.Whole? ==> 0 < r.size <= |s|
  {
    if s == [] then Nothing
    else if |s| < PREFIX_BYTES then Short
    else
      var n := FromBigEndian(s[0..8]);
      PowersOf256();
      if FromBigEndian(s[8..16]) != Complement(n) then Bad(Corrupt)
      else if n < FIXED_BYTES || n > MAX_BODY_BYTES then Bad(Corrupt)
      else if PREFIX_BYTES + n + COMMIT_BYTES > |s| then Short
      else
        var end := PREFIX_BYTES + n;
        Judge(c, s[0..16], s[16..48], s[PREFIX_BYTES..end], s[end..end + COMMIT_BYTES], end + COMMIT_BYTES == |s|)
  }

  datatype End = Clean | Incomplete | TornMarker | Broken(error: Error)

  /** The frames read, the bytes left over, and why reading stopped. */
  datatype Parsed = Parsed(history: seq<Frame>, tail: seq<byte>, end: End)

  function Parse(c: Codec, id: Identity, s: seq<byte>, h: seq<Frame>): (r: Parsed)
    ensures |r.tail| <= |s|
    ensures r.tail == s[|s| - |r.tail|..]
    decreases |s|
  {
    match First(c, s)
    case Nothing => Parsed(h, s, Clean)
    case Short => Parsed(h, s, Incomplete)
    case Torn => Parsed(h, s, TornMarker)
    case Bad(e) => Parsed(h, s, Broken(e))
    case Whole(f, size) =>
      if f.identity != id then Parsed(h, s, Broken(IdentityMismatch))
      else if f.cursor != |h| + 1 || f.sequence != CountStream(h, f.stream) + 1 then Parsed(h, s, Broken(Corrupt))
      else Parse(c, id, s[size..], h + [f])
  }

  /** The lengths that open an encoding are read back. */
  lemma LengthsReadBack(c: Codec, n: nat, s: seq<byte>)
    requires n <= MAX_BODY_BYTES
    requires |s| >= 16 && s[0..16] == c.Lengths(n)
    ensures FromBigEndian(s[0..8]) == n
    ensures FromBigEndian(s[8..16]) == Complement(n)
  {
    assert s[0..8] == s[0..16][0..8] == BigEndian(n, 8);
    assert s[8..16] == s[0..16][8..16] == BigEndian(Complement(n), 8);
    PowersOf256();
    FromBigEndianInverts(n, 8);
    FromBigEndianInverts(Complement(n), 8);
  }

  /** The parts of a prepared frame, wherever the bytes after it lead. */
  lemma PreparedParts(c: Codec, body: seq<byte>, rest: seq<byte>)
    requires |body| <= MAX_BODY_BYTES
    ensures var s := c.Prepared(body) + rest;
            && s[0..16] == c.Lengths(|body|)
            && s[16..48] == c.RecordDigest(body)
            && s[PREFIX_BYTES..PREFIX_BYTES + |body|] == body
            && s[PREFIX_BYTES + |body|..] == rest
  {
    var s := c.Prepared(body) + rest;
    assert s[..PREFIX_BYTES + |body|] == c.Prepared(body);
    assert s[0..16] == c.Prepared(body)[0..16];
    assert s[16..48] == c.Prepared(body)[16..48];
  }

  /** The verdict on the parts of a prepared frame: the marker decides. */
  lemma JudgePrepared(c: Codec, f: Frame, marker: seq<byte>, last: bool)
    requires c.Valid(f) && |marker| == COMMIT_BYTES
    ensures |Body(f)| <= MAX_BODY_BYTES
    ensures Judge(c, c.Lengths(|Body(f)|), c.RecordDigest(Body(f)), Body(f), marker, last)
         == if marker == c.Marker(Body(f)) then Whole(f, |c.Encoded(f)|)
            else if last then Torn
            else Bad(Corrupt)
  {
    hide Body, Codec.Decode, BigEndian;
    c.DecodeEncoded(f);
    MarkerParts(c, Body(f), marker);
  }

  /** A prepared frame followed by a marker's worth of bytes or more. */
  lemma FirstOfPrepared(c: Codec, f: Frame, rest: seq<byte>)
    requires c.Valid(f)
    requires |rest| >= COMMIT_BYTES
    ensures |Body(f)| <= MAX_BODY_BYTES
    ensures First(c, c.Prepared(Body(f)) + rest)
         == if rest[..COMMIT_BYTES] == c.Marker(Body(f)) then Whole(f, |c.Encoded(f)|)
            else if |rest| == COMMIT_BYTES then Torn
            else Bad(Corrupt)
  {
    hide Body, Codec.Decode, Judge, BigEndian;
    c.DecodeEncoded(f);
    var body := Body(f);
    var s := c.Prepared(body) + rest;
    PreparedParts(c, body, rest);
    LengthsReadBack(c, |body|, s);
    var end := PREFIX_BYTES + |body|;
    assert s[end..end + COMMIT_BYTES] == rest[..COMMIT_BYTES];
    JudgePrepared(c, f, rest[..COMMIT_BYTES], |rest| == COMMIT_BYTES);
  }

  lemma MarkerParts(c: Codec, body: seq<byte>, m: seq<byte>)
    requires |body| <= MAX_BODY_BYTES && |m| == COMMIT_BYTES
    ensures m == c.Marker(body) <==> m[..8] == COMMIT_MAGIC && m[8..] == c.RecordDigest(body)
  {
    assert m == m[..8] + m[8..];
    assert c.Marker(body)[..8] == COMMIT_MAGIC && c.Marker(body)[8..] == c.RecordDigest(body);
  }

  /** A complete encoding is read as its frame, whatever follows. */
  lemma FirstOfEncoded(c: Codec, f: Frame, rest: seq<byte>)
    requires c.Valid(f)
    ensures First(c, c.Encoded(f) + rest) == Whole(f, |c.Encoded(f)|)
  {
    hide Body, Codec.Decode, First;
    c.DecodeEncoded(f);
    var marker := c.Marker(Body(f));
    FirstOfPrepared(c, f, marker + rest);
    assert (marker + rest)[..COMMIT_BYTES] == marker;
    assert c.Prepared(Body(f)) + (marker + rest) == c.Encoded(f) + rest;
  }

  /** Bytes that stop anywhere inside an encoding are recognised as an unfinished append. */
  lemma FirstOfCut(c: Codec, f: Frame, cut: seq<byte>)
    requires c.Valid(f)
    requires 0 < |cut| < |c.Encoded(f)| && cut <= c.Encoded(f)
    ensures First(c, cut) == Short
  {
    hide Body, BigEndian;
    if |cut| >= PREFIX_BYTES {
      var body := Body(f);
      c.DecodeEncoded(f);
      PreparedParts(c, body, c.Marker(body));
      assert cut[0..16] == c.Encoded(f)[0..16];
      LengthsReadBack(c, |body|, cut);
    }
  }

  lemma LengthsWritten(c: Codec, s: seq<byte>)
    requires |s| >= 16 && FromBigEndian(s[0..8]) <= MAX_BODY_BYTES
    requires FromBigEndian(s[8..16]) == Complement(FromBigEndian(s[0..8]))
    ensures s[0..16] == c.Lengths(FromBigEndian(s[0..8]))
  {
    BigEndianInverts(s[0..8]);
    BigEndianInverts(s[8..16]);
    assert s[0..16] == s[0..8] + s[8..16];
  }

  lemma SplitWhole(s: seq<byte>, end: nat)
    requires PREFIX_BYTES <= end && end + COMMIT_BYTES <= |s|
    ensures s[..end + COMMIT_BYTES] == s[0..16] + s[16..48] + s[PREFIX_BYTES..end] + s[end..end + COMMIT_BYTES]
  {
  }

  /** Whatever is read as a frame is exactly that frame's encoding. */
  lemma WholeIsEncoded(c: Codec, s: seq<byte>)
    requires First(c, s).Whole?
    ensures c.Valid(First(c, s).frame)
    ensures First(c, s).size == |c.Encoded(First(c, s).frame)|
    ensures s[..First(c, s).size] == c.Encoded(First(c, s).frame)
  {
    var f, size := First(c, s).frame, First(c, s).size;
    hide Body, Codec.Decode, BigEndian;
    var n := FromBigEndian(s[0..8]);
    PowersOf256();
    var end := PREFIX_BYTES + n;
    var body := s[PREFIX_BYTES..end];
    c.EncodeDecoded(body);
    LengthsWritten(c, s);
    MarkerParts(c, body, s[end..end + COMMIT_BYTES]);
    SplitWhole(s, end);
  }

  /** A history that goes on, seen from where it goes on. */
  lemma HistoryContinues(c: Codec, id: Identity, h: seq<Frame>, k: seq<Frame>)
    requires k != [] && IsHistory(c, id, h + k)
    ensures Follows(c, id, h, k[0])
    ensures h + [k[0]] + k[1..] == h + k
  {
    assert (h + k)[..|h|] == h && (h + k)[|h|] == k[0];
  }

  /** The head of s is a frame that may follow h. */
  predicate Extends(c: Codec, id: Identity, s: seq<byte>, h: seq<Frame>) {
    && First(c, s).Whole?
    && First(c, s).frame.identity == id && First(c, s).frame.cursor == |h| + 1
    && First(c, s).frame.sequence == CountStream(h, First(c, s).frame.stream) + 1
  }

  /** Parsing goes on exactly over such frames and stops, with everything left over, at anything else. */
  lemma ParseCases(c: Codec, id: Identity, s: seq<byte>, h: seq<Frame>)
    ensures Extends(c, id, s, h)
            ==> Parse(c, id, s, h) == Parse(c, id, s[First(c, s).size..], h + [First(c, s).frame])
    ensures !Extends(c, id, s, h)
            ==> Parse(c, id, s, h).history == h && Parse(c, id, s, h).tail == s && Parse(c, id, s, h).end == Stop(c, id, s)
  {
    hide First, CountStream;
  }

  /** Why parsing stops where it does. */
  function Stop(c: Codec, id: Identity, s: seq<byte>): End {
    match First(c, s)
    case Nothing => Clean
    case Short => Incomplete
    case Torn => TornMarker
    case Bad(e) => Broken(e)
    case Whole(f, _) => if f.identity != id then Broken(IdentityMismatch) else Broken(Corrupt)
  }

  lemma ParseStep(c: Codec, id: Identity, f: Frame, rest: seq<byte>, h: seq<Frame>)
    requires Follows(c, id, h, f)
    ensures Parse(c, id, c.Encoded(f) + rest, h) == Parse(c, id, rest, h + [f])
  {
    hide First, Codec.Encoded, Body, Parse, CountStream;
    FirstOfEncoded(c, f, rest);
    var s := c.Encoded(f) + rest;
    assert s[|c.Encoded(f)|..] == rest;
    ParseCases(c, id, s, h);
  }

  /** Reading the image of a continuation k after h adds exactly k to the history. */
  lemma {:induction false} ParseOfImage(c: Codec, id: Identity, h: seq<Frame>, k: seq<Frame>, rest: seq<byte>)
    requires IsHistory(c, id, h + k) && AllValid(c, k)
    ensures Parse(c, id, Image(c, k) + rest, h) == Parse(c, id, rest, h + k)
    decreases |k|
  {
    hide Parse, Codec.Encoded, Body, Codec.Validate, IsHistory, Follows;
    if k == [] {
      assert Image(c, k) + rest == rest && h + k == h;
    } else {
      HistoryContinues(c, id, h, k);
      assert Image(c, k) + rest == c.Encoded(k[0]) + (Image(c, k[1..]) + rest);
      ParseStep(c, id, k[0], Image(c, k[1..]) + rest, h);
      ParseOfImage(c, id, h + [k[0]], k[1..], rest);
    }
  }

  lemma ConsumeWhole(c: Codec, id: Identity, s: seq<byte>, h: seq<Frame>)
    requires Extends(c, id, s, h)
    ensures Follows(c, id, h, First(c, s).frame)
    ensures s == c.Encoded(First(c, s).frame) + s[First(c, s).size..]
  {
    hide First, Codec.Encoded, Body;
    WholeIsEncoded(c, s);
    var size := First(c, s).size;
    assert s == s[..size] + s[size..];
  }

  /** Whatever was read before reading stopped is a history, and its image is what was consumed. */
  lemma {:induction false} ParsedIsImage(c: Codec, id: Identity, s: seq<byte>, h: seq<Frame>)
    requires IsHistory(c, id, h)
    ensures var p := Parse(c, id, s, h);
            && IsHistory(c, id, p.history) && h <= p.history
            && AllValid(c, p.history[|h|..])
            && s == Image(c, p.history[|h|..]) + p.tail
    decreases |s|
  {
    hide First, Parse, Codec.Encoded, Body, Codec.Validate, IsHistory;
    ParseCases(c, id, s, h);
    var p := Parse(c, id, s, h);
    if !Extends(c, id, s, h) {
      NothingRead(c, h, s);
    } else {
      ConsumeWhole(c, id, s, h);
      var f, rest := First(c, s).frame, s[First(c, s).size..];
      HistoryOfAppend(c, id, h, f);
      ParsedIsImage(c, id, rest, h + [f]);
      var more := p.history[|h|..];
      assert more[0] == f && more[1..] == p.history[|h| + 1..];
      assert s == c.Encoded(f) + (Image(c, more[1..]) + p.tail);
    }
  }

  lemma NothingRead(c: Codec, h: seq<Frame>, s: seq<byte>)
    ensures h[|h|..] == []
    ensures AllValid(c, h[|h|..]) && Image(c, h[|h|..]) + s == s
  {
  }
}
