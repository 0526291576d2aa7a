/**
 The on-disk frame of the workload log: a complemented length, a record digest,
 a body and a commit marker. SHA-256 and the character rules of an identity are
 parameters of the codec; nothing here depends on how they are computed.
 */
module FrameCodec {
  import opened Bytes
  import opened Results

  const PREFIX_BYTES: nat := 48
  const FIXED_BYTES: nat := 68
  const COMMIT_BYTES: nat := 40
  const MAX_IDENTITY_BYTES: nat := 128
  const MAX_PAYLOAD_BYTES: nat := 0x100_0000
  const MAX_BODY_BYTES: nat := FIXED_BYTES + 2 * MAX_IDENTITY_BYTES + MAX_PAYLOAD_BYTES
  const SCHEMA_VERSION: nat := 1

  /** "MDLG" */
  const FRAME_MAGIC: seq<byte> := [0x4D, 0x44, 0x4C, 0x47]

  /** "MDLGCMT1" */
  const COMMIT_MAGIC: seq<byte> := [0x4D, 0x44, 0x4C, 0x47, 0x43, 0x4D, 0x54, 0x31]

  datatype Identity = Identity(container: seq<byte>, attempt: seq<byte>)

  datatype Stream = Stdout | Stderr | Unsupported(name: string) {
    predicate Valid() { !Unsupported? }
  }

  datatype Frame = Frame(
    schema: nat, identity: Identity, stream: Stream,
    cursor: u64, sequence: u64, payload: seq<byte>, digest: Digest)

  datatype Error =
    | UnsupportedSchema
    | InvalidIdentity
    | UnsupportedStream
    | ZeroPosition
    | EmptyPayload
    | PayloadTooLong
    | ChecksumMismatch
    | Corrupt
    | IdentityMismatch
    | CursorGap(requested: u64, lastAvailable: nat)
    | InvalidLimit
    | Closed
    | AppendUnavailable
    | Exhausted
    | InUse
    | Io

  function EncodeStream(s: Stream): (r: Result<byte, Error>) {
    match s
    case Stdout => Ok(1)
    case Stderr => Ok(2)
    case Unsupported(_) => Err(UnsupportedStream)
  }

  function DecodeStream(code: byte): (r: Result<Stream, Error>) {
    if code == 1 then Ok(Stdout)
    else if code == 2 then Ok(Stderr)
    else Err(UnsupportedStream)
  }

  function Complement(v: u64): u64 { MAX_U64 - v }

  /** The fixed 68 bytes that open a body, in two halves: identification, then positions and payload. */
  function Tag(f: Frame): (s: seq<byte>)
    requires f.stream.Valid()
    ensures |s| == 16
  {
    FRAME_MAGIC + BigEndian(f.schema, 4)
    + BigEndian(|f.identity.container|, 2) + BigEndian(|f.identity.attempt|, 2)
    + [EncodeStream(f.stream).value] + [0, 0, 0]
  }

  function Positions(f: Frame): (s: seq<byte>)
    ensures |s| == 52
  {
    BigEndian(f.cursor, 8) + BigEndian(f.sequence, 8) + BigEndian(|f.payload|, 4) + f.digest
  }

  function Header(f: Frame): (s: seq<byte>)
    requires f.stream.Valid()
    ensures |s| == FIXED_BYTES
  {
    Tag(f) + Positions(f)
  }

  function Body(f: Frame): (s: seq<byte>)
    requires f.stream.Valid()
    ensures |s| == FIXED_BYTES + |f.identity.container| + |f.identity.attempt| + |f.payload|
  {
    Header(f) + (f.identity.container + f.identity.attempt + f.payload)
  }

  datatype Codec = Codec(sha: seq<byte> -> Digest, idText: seq<byte> -> bool) {

    predicate IdOk(id: seq<byte>) {
      0 < |id| <= MAX_IDENTITY_BYTES && idText(id)
    }

    predicate IdentityOk(id: Identity) {
      IdOk(id.container) && IdOk(id.attempt)
    }

    /** The first rule a frame breaks, in the order the rules are checked. */
    function Validate(f: Frame): Option<Error> {
      if f.schema != SCHEMA_VERSION then Some(UnsupportedSchema)
      else if !IdentityOk(f.identity) then Some(InvalidIdentity)
      else if !f.stream.Valid() then Some(UnsupportedStream)
      else if f.cursor == 0 || f.sequence == 0 then Some(ZeroPosition)
      else if |f.payload| == 0 then Some(EmptyPayload)
      else if |f.payload| > MAX_PAYLOAD_BYTES then Some(PayloadTooLong)
      else if f.digest != sha(f.payload) then Some(ChecksumMismatch)
      else None
    }

    predicate Valid(f: Frame) { Validate(f).None? }

    function Lengths(n: nat): (s: seq<byte>)
      requires n <= MAX_BODY_BYTES
      ensures |s| == 16
    {
      BigEndian(n, 8) + BigEndian(Complement(n), 8)
    }

    /** The digest that binds the length and the whole body. */
    function RecordDigest(body: seq<byte>): Digest
      requires |body| <= MAX_BODY_BYTES
    {
      sha(Lengths(|body|) + body)
    }

    /** What the first phase of an append writes. */
    function Prepared(body: seq<byte>): (s: seq<byte>)
      requires |body| <= MAX_BODY_BYTES
      ensures |s| == PREFIX_BYTES + |body|
    {
      Lengths(|body|) + RecordDigest(body) + body
    }

    /** What the second phase of an append writes. */
    function Marker(body: seq<byte>): (s: seq<byte>)
      requires |body| <= MAX_BODY_BYTES
      ensures |s| == COMMIT_BYTES
    {
      COMMIT_MAGIC + RecordDigest(body)
    }

    function Encoded(f: Frame): (s: seq<byte>)
      requires Valid(f)
      ensures |s| == PREFIX_BYTES + |Body(f)| + COMMIT_BYTES
    {
      Prepared(Body(f)) + Marker(Body(f))
    }

    /** Parses one complete body; every failure names the rule that refused it. */
    function Decode(body: seq<byte>): (r: Result<Frame, Error>)
      ensures r.Ok? ==> Valid(r.value)
    {
      if |body| < FIXED_BYTES then Err(Corrupt)
      else if body[0..4] != FRAME_MAGIC then Err(Corrupt)
      else
        var schema := FromBigEndian(body[4..8]);
        if schema != SCHEMA_VERSION then Err(UnsupportedSchema)
        else
          var c := FromBigEndian(body[8..10]);
          var a := FromBigEndian(body[10..12]);
          if c == 0 || c > MAX_IDENTITY_BYTES || a == 0 || a > MAX_IDENTITY_BYTES then Err(Corrupt)
          else if body[13] != 0 || body[14] != 0 || body[15] != 0 then Err(Corrupt)
          else if DecodeStream(body[12]).Err? then Err(Corrupt)
          else
            var p := FromBigEndian(body[32..36]);
            if p == 0 || p > MAX_PAYLOAD_BYTES then Err(Corrupt)
            else if |body| != FIXED_BYTES + c + a + p then Err(Corrupt)
            else
              var payload := body[FIXED_BYTES + c + a..];
              if body[36..68] != sha(payload) then Err(Corrupt)
              else
                PowersOf256();
                var f := Frame(
                           SCHEMA_VERSION,
                           Identity(body[FIXED_BYTES..FIXED_BYTES + c], body[FIXED_BYTES + c..FIXED_BYTES + c + a]),
                           DecodeStream(body[12]).value,
                           FromBigEndian(body[16..24]), FromBigEndian(body[24..32]),
                           payload, sha(payload));
                if Valid(f) then Ok(f) else Err(Corrupt)
    }

    /** Where the parts of an encoding lie: the record digest covers the lengths and the body, and the marker repeats it. */
    lemma EncodedLayout(f: Frame)
      requires Valid(f)
      ensures var s, n := Encoded(f), |Body(f)|;
              && |s| == 88 + n && n <= MAX_BODY_BYTES
              && s[0..8] == BigEndian(n, 8) && s[8..16] == BigEndian(MAX_U64 - n, 8)
              && s[48..48 + n] == Body(f)
              && s[16..48] == sha(s[0..16] + s[48..48 + n])
              && s[48 + n..56 + n] == COMMIT_MAGIC
              && s[56 + n..] == s[16..48]
    {
      hide BigEndian, Header;
      var s, n, body := Encoded(f), |Body(f)|, Body(f);
      assert s[0..16] == Lengths(n);
      assert s[48..48 + n] == body;
      assert s[16..48] == RecordDigest(body);
      assert s[48 + n..] == Marker(body);
      assert s[48 + n..][..8] == COMMIT_MAGIC && s[48 + n..][8..] == RecordDigest(body);
    }

    /** Each field of an encoded header lies where the decoder looks for it. */
    lemma TagFields(f: Frame)
      requires f.stream.Valid()
      ensures var t := Tag(f);
              && t[0..4] == FRAME_MAGIC
              && t[4..8] == BigEndian(f.schema, 4)
              && t[8..10] == BigEndian(|f.identity.container|, 2)
              && t[10..12] == BigEndian(|f.identity.attempt|, 2)
              && t[12] == EncodeStream(f.stream).value
              && t[13] == 0 && t[14] == 0 && t[15] == 0
    {
    }

    lemma PositionFields(f: Frame)
      ensures var p := Positions(f);
              && p[0..8] == BigEndian(f.cursor, 8)
              && p[8..16] == BigEndian(f.sequence, 8)
              && p[16..20] == BigEndian(|f.payload|, 4)
              && p[20..52] == f.digest
    {
    }

    /** The same fields, seen through the whole body. */
    lemma BodyFields(f: Frame)
      requires Valid(f)
      ensures var b, t, p := Body(f), Tag(f), Positions(f);
              && b[0..4] == t[0..4] && b[4..8] == t[4..8] && b[8..10] == t[8..10] && b[10..12] == t[10..12]
              && b[12] == t[12] && b[13] == t[13] && b[14] == t[14] && b[15] == t[15]
              && b[16..24] == p[0..8] && b[24..32] == p[8..16] && b[32..36] == p[16..20] && b[36..68] == p[20..52]
      ensures var c, a := |f.identity.container|, |f.identity.attempt|;
              && Body(f)[FIXED_BYTES..FIXED_BYTES + c] == f.identity.container
              && Body(f)[FIXED_BYTES + c..FIXED_BYTES + c + a] == f.identity.attempt
              && Body(f)[FIXED_BYTES + c + a..] == f.payload
    {
      assert Body(f)[..16] == Tag(f);
      assert Body(f)[16..68] == Positions(f);
    }

    lemma BodySize(f: Frame)
      requires Valid(f)
      ensures |Body(f)| == FIXED_BYTES + |f.identity.container| + |f.identity.attempt| + |f.payload| <= MAX_BODY_BYTES
    {
    }

    /** Decoding what was encoded returns the frame. */
    lemma DecodeEncoded(f: Frame)
      requires Valid(f)
      ensures |Body(f)| <= MAX_BODY_BYTES
      ensures Decode(Body(f)) == Ok(f)
    {
      BodyFields(f);
      TagFields(f);
      PositionFields(f);
      PowersOf256();
      BodySize(f);
      hide Body, Tag, Positions, BigEndian, FromBigEndian;
      FromBigEndianInverts(f.schema, 4);
      FromBigEndianInverts(|f.identity.container|, 2);
      FromBigEndianInverts(|f.identity.attempt|, 2);
      FromBigEndianInverts(|f.payload|, 4);
      FromBigEndianInverts(f.cursor, 8);
      FromBigEndianInverts(f.sequence, 8);
    }

    /** What acceptance says of each field of the body. */
    lemma DecodedFields(body: seq<byte>)
      requires Decode(body).Ok?
      ensures var f := Decode(body).value;
              && Valid(f)
              && body[0..4] == FRAME_MAGIC
              && body[4..8] == BigEndian(f.schema, 4)
              && body[8..10] == BigEndian(|f.identity.container|, 2)
              && body[10..12] == BigEndian(|f.identity.attempt|, 2)
              && body[12] == EncodeStream(f.stream).value
              && body[13] == 0 && body[14] == 0 && body[15] == 0
              && body[16..24] == BigEndian(f.cursor, 8)
              && body[24..32] == BigEndian(f.sequence, 8)
              && body[32..36] == BigEndian(|f.payload|, 4)
              && body[36..68] == f.digest
      ensures var f := Decode(body).value; var c, a := |f.identity.container|, |f.identity.attempt|;
              && |body| == FIXED_BYTES + c + a + |f.payload|
              && body[FIXED_BYTES..FIXED_BYTES + c] == f.identity.container
              && body[FIXED_BYTES + c..FIXED_BYTES + c + a] == f.identity.attempt
              && body[FIXED_BYTES + c + a..] == f.payload
    {
      BigEndianInverts(body[4..8]);
      BigEndianInverts(body[8..10]);
      BigEndianInverts(body[10..12]);
      BigEndianInverts(body[16..24]);
      BigEndianInverts(body[24..32]);
      BigEndianInverts(body[32..36]);
    }

    lemma DecodedTag(body: seq<byte>)
      requires Decode(body).Ok?
      ensures Tag(Decode(body).value) == body[..16]
    {
      DecodedFields(body);
      SplitTag(body);
    }

    lemma DecodedPositions(body: seq<byte>)
      requires Decode(body).Ok?
      ensures Positions(Decode(body).value) == body[16..68]
    {
      DecodedFields(body);
      SplitPositions(body);
    }

    /** Re-encoding any accepted body returns the very same bytes, so a frame has one encoding. */
    lemma EncodeDecoded(body: seq<byte>)
      requires Decode(body).Ok?
      ensures Valid(Decode(body).value)
      ensures Body(Decode(body).value) == body
    {
      hide Tag;
      var f := Decode(body).value;
      DecodedTag(body);
      DecodedPositions(body);
      DecodedFields(body);
      SplitBody(body, |f.identity.container|, |f.identity.attempt|);
    }

    /** Two frames that share an encoding are one frame. */
    lemma EncodingIsInjective(f: Frame, g: Frame)
      requires Valid(f) && Valid(g)
      requires Body(f) == Body(g)
      ensures f == g
    {
      DecodeEncoded(f);
      DecodeEncoded(g);
    }
  }

  lemma SplitTag(s: seq<byte>)
    requires |s| >= FIXED_BYTES
    ensures s[..16] == s[0..4] + s[4..8] + s[8..10] + s[10..12] + [s[12]] + [s[13], s[14], s[15]]
  {
  }

  lemma SplitBody(s: seq<byte>, c: nat, a: nat)
    requires |s| >= FIXED_BYTES + c + a
    ensures s == s[..16] + s[16..68]
                 + (s[FIXED_BYTES..FIXED_BYTES + c] + s[FIXED_BYTES + c..FIXED_BYTES + c + a] + s[FIXED_BYTES + c + a..])
  {
  }

  lemma SplitPositions(s: seq<byte>)
    requires |s| >= FIXED_BYTES
    ensures s[16..68] == s[16..24] + s[24..32] + s[32..36] + s[36..68]
  {
  }

  /** Writes s into the buffer at the given offset and touches nothing else. */
  method Put(buffer: array<byte>, offset: nat, s: seq<byte>)
    requires offset + |s| <= buffer.Length
    modifies buffer
    ensures buffer[..offset + |s|] == old(buffer[..offset]) + s
    ensures forall i :: offset + |s| <= i < buffer.Length ==> buffer[i] == old(buffer[i])
  {
    for i := 0 to |s|
      invariant buffer[..offset + i] == old(buffer[..offset]) + s[..i]
      invariant forall k :: offset + i <= k < buffer.Length ==> buffer[k] == old(buffer[k])
    {
      buffer[offset + i] := s[i];
      assert buffer[..offset + i + 1] == buffer[..offset + i] + [s[i]];
    }
  }

  /** Fills the first sixteen bytes of a body that begins after the length prefix; the reserved bytes stay zero. */
  method PutTag(f: Frame, buffer: array<byte>)
    requires f.stream.Valid()
    requires buffer.Length >= PREFIX_BYTES + 16
    requires forall i :: PREFIX_BYTES <= i < buffer.Length ==> buffer[i] == 0
    modifies buffer
    ensures buffer[..PREFIX_BYTES + 16] == old(buffer[..PREFIX_BYTES]) + Tag(f)
    ensures forall i :: PREFIX_BYTES + 16 <= i < buffer.Length ==> buffer[i] == 0
  {
    Put(buffer, PREFIX_BYTES, FRAME_MAGIC);
    Put(buffer, PREFIX_BYTES + 4, BigEndian(f.schema, 4));
    Put(buffer, PREFIX_BYTES + 8, BigEndian(|f.identity.container|, 2));
    Put(buffer, PREFIX_BYTES + 10, BigEndian(|f.identity.attempt|, 2));
    Put(buffer, PREFIX_BYTES + 12, [EncodeStream(f.stream).value]);
    assert buffer[..PREFIX_BYTES + 16] == buffer[..PREFIX_BYTES + 13] + [0, 0, 0];
  }

  /** Fills positions, payload length and payload digest. */
  method PutPositions(codec: Codec, f: Frame, buffer: array<byte>)
    requires f.digest == codec.sha(f.payload)
    requires buffer.Length >= PREFIX_BYTES + FIXED_BYTES
    modifies buffer
    ensures buffer[..PREFIX_BYTES + FIXED_BYTES] == old(buffer[..PREFIX_BYTES + 16]) + Positions(f)
    ensures forall i :: PREFIX_BYTES + FIXED_BYTES <= i < buffer.Length ==> buffer[i] == old(buffer[i])
  {
    Put(buffer, PREFIX_BYTES + 16, BigEndian(f.cursor, 8));
    Put(buffer, PREFIX_BYTES + 24, BigEndian(f.sequence, 8));
    Put(buffer, PREFIX_BYTES + 32, BigEndian(|f.payload|, 4));
    Put(buffer, PREFIX_BYTES + 36, codec.sha(f.payload));
  }

  /** Writes three runs of bytes one after the other. */
  method PutRuns(buffer: array<byte>, offset: nat, x: seq<byte>, y: seq<byte>, z: seq<byte>)
    requires offset + |x| + |y| + |z| <= buffer.Length
    modifies buffer
    ensures buffer[..offset + |x| + |y| + |z|] == old(buffer[..offset]) + (x + y + z)
  {
    ghost var opening := buffer[..offset];
    Put(buffer, offset, x);
    Put(buffer, offset + |x|, y);
    Put(buffer, offset + |x| + |y|, z);
    assert opening + x + y + z == opening + (x + y + z);
  }

  /** Completes a buffer whose lengths and body are in place: digest of both, then the commit marker. */
  method Seal(codec: Codec, buffer: array<byte>, n: nat)
    requires buffer.Length == PREFIX_BYTES + n + COMMIT_BYTES
    modifies buffer
    ensures var lengths, body := old(buffer[..16]), old(buffer[PREFIX_BYTES..PREFIX_BYTES + n]);
            var digest := codec.sha(lengths + body);
            buffer[..] == lengths + digest + body + (COMMIT_MAGIC + digest)
  {
    ghost var lengths, body := buffer[..16], buffer[PREFIX_BYTES..PREFIX_BYTES + n];
    var digest := codec.sha(buffer[..16] + buffer[PREFIX_BYTES..PREFIX_BYTES + n]);
    Put(buffer, 16, digest);
    assert buffer[PREFIX_BYTES..PREFIX_BYTES + n] == body;
    assert buffer[..PREFIX_BYTES + n] == buffer[..PREFIX_BYTES] + buffer[PREFIX_BYTES..PREFIX_BYTES + n];
    PutRuns(buffer, PREFIX_BYTES + n, COMMIT_MAGIC, digest, []);
    assert COMMIT_MAGIC + digest + [] == COMMIT_MAGIC + digest;
    assert buffer[..] == buffer[..PREFIX_BYTES + n + |COMMIT_MAGIC| + |digest|];
  }

  /** Fills a whole body after the length prefix. */
  method PutBody(codec: Codec, f: Frame, buffer: array<byte>)
    requires codec.Valid(f)
    requires buffer.Length == PREFIX_BYTES + |Body(f)| + COMMIT_BYTES
    requires forall i :: PREFIX_BYTES <= i < buffer.Length ==> buffer[i] == 0
    modifies buffer
    ensures buffer[..PREFIX_BYTES + |Body(f)|] == old(buffer[..PREFIX_BYTES]) + Body(f)
  {
    ghost var opening := buffer[..PREFIX_BYTES];
    PutTag(f, buffer);
    PutPositions(codec, f, buffer);
    assert buffer[..PREFIX_BYTES + FIXED_BYTES] == opening + Header(f);
    PutRuns(buffer, PREFIX_BYTES + FIXED_BYTES, f.identity.container, f.identity.attempt, f.payload);
  }

  /** Fills one zeroed buffer: lengths, body, then the digest that covers both, then the commit marker. */
  method EncodeFrame(codec: Codec, f: Frame) returns (r: Result<seq<byte>, Error>)
    ensures r.Err? <==> codec.Validate(f).Some?
    ensures r.Err? ==> r.error == codec.Validate(f).value
    ensures r.Ok? ==> r.value == codec.Encoded(f)
  {
    if codec.Validate(f).Some? {
      return Err(codec.Validate(f).value);
    }
    var n := FIXED_BYTES + |f.identity.container| + |f.identity.attempt| + |f.payload|;
    ghost var body := Body(f);
    var buffer := new byte[PREFIX_BYTES + n + COMMIT_BYTES](_ => 0);
    Put(buffer, 0, BigEndian(n, 8));
    Put(buffer, 8, BigEndian(Complement(n), 8));
    ghost var opening := buffer[..PREFIX_BYTES];
    assert buffer[..16] == codec.Lengths(n);
    PutBody(codec, f, buffer);
    assert buffer[..16] == buffer[..PREFIX_BYTES + n][..16] == opening[..16] == codec.Lengths(n);
    assert buffer[PREFIX_BYTES..PREFIX_BYTES + n] == buffer[..PREFIX_BYTES + n][PREFIX_BYTES..] == body;
    Seal(codec, buffer, n);
    r := Ok(buffer[..]);
  }
}
