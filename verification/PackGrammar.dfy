/**
 What a pack is: the magic prefix and then whole frames. The streaming reader
 agrees with a parser of the whole string, and that parser undoes the encoder.
 */
module PackGrammar {
  import opened Encoding
  import opened Digests
  import opened Pack

  datatype Frame = Frame(digest: Digest, payload: Bytes)

  /** The fixed-size header served in front of a blob; nothing for a digest no frame can name. */
  function BlobHeader(d: Digest): (header: Option<Bytes>)
    ensures header.Some? ==> |header.value| == HEADER_BYTES
  {
    match DecodeHex(d.hash)
    case None => None
    case Some(hash) =>
      if |hash| != 32 then None
      else if d.algorithm == "blake3" then Some([1] + hash + BigEndian(d.size, 8))
      else if d.algorithm == "sha256" then Some([2] + hash + BigEndian(d.size, 8))
      else None
  }

  /** The reader decodes what the server encodes. */
  lemma HeaderDecodes(limits: Limits, d: Digest)
    requires ValidDigest(d)
    ensures BlobHeader(d).Some?
    ensures ParseHeader(limits, BlobHeader(d).value)
         == if d.size > limits.maxBlobBytes then Err(BlobTooLarge(d.size, limits.maxBlobBytes)) else Ok(d)
  {
    EncodeHexOfDecodeHex(d.hash);
    var header := BlobHeader(d).value;
    assert header[1..33] == DecodeHex(d.hash).value;
    assert header[33..] == BigEndian(d.size, 8);
    EightBytesHoldU64();
    FromBigEndianOfBigEndian(d.size, 8);
  }

  /** A header the reader takes is the only one for its digest. */
  lemma HeaderEncodes(limits: Limits, header: Bytes)
    requires |header| == HEADER_BYTES && ParseHeader(limits, header).Ok?
    ensures ValidDigest(ParseHeader(limits, header).value)
    ensures BlobHeader(ParseHeader(limits, header).value) == Some(header)
  {
    DecodeHexOfEncodeHex(header[1..33]);
    BigEndianOfFromBigEndian(header[33..]);
    assert header == [header[0]] + header[1..33] + header[33..];
  }

  predicate ValidFrame(limits: Limits, f: Frame) {
    ValidDigest(f.digest) && |f.payload| == f.digest.size <= limits.maxBlobBytes
  }

  function TotalBytes(frames: seq<Frame>): nat {
    if frames == [] then 0 else |frames[0].payload| + TotalBytes(frames[1..])
  }

  /** Frames a reader that has already counted `blobs` and `payloadBytes` has room for. */
  predicate Fits(limits: Limits, blobs: nat, payloadBytes: nat, frames: seq<Frame>) {
    && (forall i | 0 <= i < |frames| :: ValidFrame(limits, frames[i]))
    && blobs + |frames| <= limits.maxBlobs
    && payloadBytes + TotalBytes(frames) <= limits.maxPayloadBytes
  }

  function FrameBytes(f: Frame): Bytes {
    match BlobHeader(f.digest)
    case Some(header) => header + f.payload
    case None => []
  }

  function EncodeFrames(frames: seq<Frame>): Bytes {
    if frames == [] then [] else FrameBytes(frames[0]) + EncodeFrames(frames[1..])
  }

  function Encode(frames: seq<Frame>): Bytes {
    MAGIC + EncodeFrames(frames)
  }

  /** Put one parsed frame in front of the rest. */
  function Cons(f: Frame, rest: Result<seq<Frame>>): Result<seq<Frame>> {
    match rest
    case Err(error) => Err(error)
    case Ok(frames) => Ok([f] + frames)
  }

  /** Parse the frames of a whole string held in memory. */
  function ParseFrames(limits: Limits, blobs: nat, payloadBytes: nat, s: Bytes): Result<seq<Frame>>
    decreases |s|
  {
    if s == [] then Ok([])
    else if |s| < HEADER_BYTES then Err(Truncated)
    else
      match ParseHeader(limits, s[..HEADER_BYTES])
      case Err(error) => Err(error)
      case Ok(d) =>
        var body := s[HEADER_BYTES..];
        if blobs + 1 > limits.maxBlobs then Err(TooManyBlobs(limits.maxBlobs))
        else if payloadBytes + Min(d.size, |body|) > limits.maxPayloadBytes then Err(TooManyBytes(limits.maxPayloadBytes))
        else if |body| < d.size then Err(Truncated)
        else Cons(Frame(d, body[..d.size]), ParseFrames(limits, blobs + 1, payloadBytes + d.size, body[d.size..]))
  }

  function ParsePack(limits: Limits, s: Bytes): Result<seq<Frame>> {
    if |s| < |MAGIC| then Err(Truncated)
    else if s[..|MAGIC|] != MAGIC then Err(BadMagic)
    else ParseFrames(limits, 0, 0, s[|MAGIC|..])
  }

  lemma FirstFrameFits(limits: Limits, blobs: nat, payloadBytes: nat, f: Frame, rest: seq<Frame>)
    requires ValidFrame(limits, f) && Fits(limits, blobs + 1, payloadBytes + |f.payload|, rest)
    ensures Fits(limits, blobs, payloadBytes, [f] + rest)
    ensures EncodeFrames([f] + rest) == FrameBytes(f) + EncodeFrames(rest)
  {
    hide ValidFrame;
    hide FrameBytes;
    assert ([f] + rest)[1..] == rest;
  }

  /** A parsed string is the encoding of its frames, and they fit. */
  lemma {:induction false} ParseSound(limits: Limits, blobs: nat, payloadBytes: nat, s: Bytes)
    requires blobs <= limits.maxBlobs && payloadBytes <= limits.maxPayloadBytes
    requires ParseFrames(limits, blobs, payloadBytes, s).Ok?
    ensures var frames := ParseFrames(limits, blobs, payloadBytes, s).value;
            Fits(limits, blobs, payloadBytes, frames) && s == EncodeFrames(frames)
    decreases |s|
  {
    hide ParseHeader;
    hide BlobHeader;
    if s != [] {
      hide Fits;
      hide EncodeFrames;
      HeaderEncodes(limits, s[..HEADER_BYTES]);
      var d, body := ParseHeader(limits, s[..HEADER_BYTES]).value, s[HEADER_BYTES..];
      ParseSound(limits, blobs + 1, payloadBytes + d.size, body[d.size..]);
      var rest := ParseFrames(limits, blobs + 1, payloadBytes + d.size, body[d.size..]).value;
      FirstFrameFits(limits, blobs, payloadBytes, Frame(d, body[..d.size]), rest);
      assert s == s[..HEADER_BYTES] + body[..d.size] + body[d.size..];
    }
  }

  /** Where a frame's bytes are cut. */
  lemma FrameSlices(header: Bytes, payload: Bytes, rest: Bytes)
    requires |header| == HEADER_BYTES
    ensures var s := header + payload + rest;
            && |s| >= HEADER_BYTES && s[..HEADER_BYTES] == header
            && |s[HEADER_BYTES..]| >= |payload|
            && s[HEADER_BYTES..][..|payload|] == payload && s[HEADER_BYTES..][|payload|..] == rest
  {
    var s := header + payload + rest;
    assert s[HEADER_BYTES..] == payload + rest;
  }

  lemma ParseFirstFrame(limits: Limits, blobs: nat, payloadBytes: nat, f: Frame, rest: Bytes)
    requires ValidFrame(limits, f)
    requires blobs + 1 <= limits.maxBlobs && payloadBytes + f.digest.size <= limits.maxPayloadBytes
    ensures ParseFrames(limits, blobs, payloadBytes, FrameBytes(f) + rest)
         == Cons(f, ParseFrames(limits, blobs + 1, payloadBytes + f.digest.size, rest))
  {
    hide ValidDigest;
    hide BlobHeader;
    hide ParseHeader;
    HeaderDecodes(limits, f.digest);
    FrameSlices(BlobHeader(f.digest).value, f.payload, rest);
  }

  lemma ParseNothing(limits: Limits, blobs: nat, payloadBytes: nat)
    ensures ParseFrames(limits, blobs, payloadBytes, []) == Ok([])
  {
  }

  /** Frames that fit are read back from their encoding. */
  lemma {:induction false} ParseComplete(limits: Limits, blobs: nat, payloadBytes: nat, frames: seq<Frame>)
    requires Fits(limits, blobs, payloadBytes, frames)
    ensures ParseFrames(limits, blobs, payloadBytes, EncodeFrames(frames)) == Ok(frames)
    decreases |frames|
  {
    hide ParseFrames;
    if frames == [] {
      ParseNothing(limits, blobs, payloadBytes);
    } else {
      ParseComplete(limits, blobs + 1, payloadBytes + frames[0].digest.size, frames[1..]);
      ParseFirstFrame(limits, blobs, payloadBytes, frames[0], EncodeFrames(frames[1..]));
      assert [frames[0]] + frames[1..] == frames;
    }
  }

  // The streaming reader against the whole-string parser.

  function DataTokens(bytes: Bytes): seq<Token> {
    seq(|bytes|, i requires 0 <= i < |bytes| => Data(bytes[i]))
  }

  function FrameTokens(frames: seq<Frame>): seq<Token> {
    if frames == [] then []
    else [Open(frames[0].digest)] + DataTokens(frames[0].payload) + [Close] + FrameTokens(frames[1..])
  }

  /** The reader's answer for a whole stream: the first refusal, or a cut frame, or what it read. */
  function Answer(pushed: Pushed): Result<seq<Token>> {
    match pushed
    case Refused(error) => Err(error)
    case Accepted(events, core) => if Finish(core).Ok? then Ok(Tokens(events)) else Err(Truncated)
  }

  /** A reader that has read `frames` more than `core`. */
  predicate HasRead(core: Core, frames: seq<Frame>, pushed: Pushed) {
    && pushed.Accepted?
    && Finish(pushed.core).Ok?
    && Tokens(pushed.events) == FrameTokens(frames)
    && pushed.core.blobs == core.blobs + |frames|
    && pushed.core.payloadBytes == core.payloadBytes + TotalBytes(frames)
  }

  predicate Agrees(core: Core, parsed: Result<seq<Frame>>, pushed: Pushed) {
    match parsed
    case Err(error) => Answer(pushed) == Err(error)
    case Ok(frames) => HasRead(core, frames, pushed)
  }

  /** The reader's turns over one frame, and the input they leave. */
  lemma FrameTurns(limits: Limits, core: Core, s: Bytes)
    requires ValidCore(limits, core) && core.phase.AtHeader? && core.buffer == []
    requires |s| >= HEADER_BYTES && ParseHeader(limits, s[..HEADER_BYTES]).Ok?
    requires core.blobs + 1 <= limits.maxBlobs
    ensures (var d, body := ParseHeader(limits, s[..HEADER_BYTES]).value, s[HEADER_BYTES..];
             ValidCore(limits, Begin(core, d))
             && Consume(limits, core, s) == Prepend(BeginEvents(d), Consume(limits, Begin(core, d), body)))
  {
    assert [] + s[..HEADER_BYTES] == s[..HEADER_BYTES];
  }

  /** A frame whose payload is complete. */
  lemma PayloadTurns(limits: Limits, core: Core, d: Digest, body: Bytes)
    requires ValidCore(limits, core) && core.phase.AtHeader? && core.buffer == []
    requires core.blobs + 1 <= limits.maxBlobs && d.size <= limits.maxBlobBytes
    requires d.size <= |body| && core.payloadBytes + d.size <= limits.maxPayloadBytes
    ensures var next := core.(blobs := core.blobs + 1, payloadBytes := core.payloadBytes + d.size);
            exists events ::
              && Tokens(events) == [Open(d)] + DataTokens(body[..d.size]) + [Close]
              && Prepend(BeginEvents(d), Consume(limits, Begin(core, d), body))
              == Prepend(events, Consume(limits, next, body[d.size..]))
  {
    var next := core.(blobs := core.blobs + 1, payloadBytes := core.payloadBytes + d.size);
    var rest := Consume(limits, next, body[d.size..]);
    if d.size == 0 {
      assert body[0..] == body;
      assert Begin(core, d) == next;
      var events := [Started(d), Complete];
      assert [Open(d)] + DataTokens(body[..0]) + [Close] == [Open(d), Close];
      assert Tokens(events) == [Open(d), Close];
    } else {
      var payload := body[..d.size];
      assert Advance(Begin(core, d), d.size) == next;
      PrependTwice([Started(d)], [Payload(payload), Complete], rest);
      var events := [Started(d)] + [Payload(payload), Complete];
      assert events[1..] == [Payload(payload), Complete] && events[1..][1..] == [Complete];
      assert Tokens([Complete]) == [Close] + [];
      assert Tokens(events) == [Open(d)] + (DataTokens(payload) + [Close]);
    }
  }

  /** A frame whose payload is cut short. */
  lemma CutPayload(limits: Limits, core: Core, d: Digest, body: Bytes)
    requires ValidCore(limits, core) && core.phase.AtHeader? && core.buffer == []
    requires core.blobs + 1 <= limits.maxBlobs && d.size <= limits.maxBlobBytes
    requires |body| < d.size && core.payloadBytes + |body| <= limits.maxPayloadBytes
    ensures Answer(Prepend(BeginEvents(d), Consume(limits, Begin(core, d), body))) == Err(Truncated)
  {
  }

  /** Whatever stops the reader before the end of a frame stops the parser too. */
  lemma StoppedInFrame(limits: Limits, core: Core, s: Bytes)
    requires ValidCore(limits, core) && core.phase.AtHeader? && core.buffer == []
    requires |s| < HEADER_BYTES || ParseHeader(limits, s[..HEADER_BYTES]).Err? || core.blobs + 1 > limits.maxBlobs
    ensures Agrees(core, ParseFrames(limits, core.blobs, core.payloadBytes, s), Consume(limits, core, s))
  {
    assert core.buffer + s == s;
    if |s| >= HEADER_BYTES {
      assert core.buffer + s[..HEADER_BYTES] == s[..HEADER_BYTES];
    }
  }

  lemma OverlongPayload(limits: Limits, core: Core, d: Digest, body: Bytes)
    requires ValidCore(limits, core) && core.phase.AtHeader? && core.buffer == []
    requires core.blobs + 1 <= limits.maxBlobs && d.size <= limits.maxBlobBytes
    requires core.payloadBytes + Min(d.size, |body|) > limits.maxPayloadBytes
    ensures Answer(Prepend(BeginEvents(d), Consume(limits, Begin(core, d), body)))
         == Err(TooManyBytes(limits.maxPayloadBytes))
  {
  }

  lemma {:induction false} ReaderAgreesOnFrames(limits: Limits, core: Core, s: Bytes)
    requires ValidCore(limits, core) && core.phase.AtHeader? && core.buffer == []
    ensures Agrees(core, ParseFrames(limits, core.blobs, core.payloadBytes, s), Consume(limits, core, s))
    decreases |s|
  {
    hide ParseHeader;
    hide Consume;
    hide HasRead;
    if |s| < HEADER_BYTES || ParseHeader(limits, s[..HEADER_BYTES]).Err? || core.blobs + 1 > limits.maxBlobs {
      StoppedInFrame(limits, core, s);
    } else {
      FrameTurns(limits, core, s);
      var d, body := ParseHeader(limits, s[..HEADER_BYTES]).value, s[HEADER_BYTES..];
      if core.payloadBytes + Min(d.size, |body|) > limits.maxPayloadBytes {
        OverlongPayload(limits, core, d, body);
      } else if |body| < d.size {
        CutPayload(limits, core, d, body);
      } else {
        PayloadTurns(limits, core, d, body);
        var next := core.(blobs := core.blobs + 1, payloadBytes := core.payloadBytes + d.size);
        ReaderAgreesOnFrames(limits, next, body[d.size..]);
        AgreesStep(limits, core, next, d, body);
      }
    }
  }

  lemma AgreesStep(limits: Limits, core: Core, next: Core, d: Digest, body: Bytes)
    requires ValidCore(limits, core) && ValidCore(limits, next) && d.size <= |body|
    requires next.blobs == core.blobs + 1 && next.payloadBytes == core.payloadBytes + d.size
    requires Agrees(next, ParseFrames(limits, next.blobs, next.payloadBytes, body[d.size..]),
                    Consume(limits, next, body[d.size..]))
    ensures forall events | Tokens(events) == [Open(d)] + DataTokens(body[..d.size]) + [Close] ::
              Agrees(core, Cons(Frame(d, body[..d.size]), ParseFrames(limits, next.blobs, next.payloadBytes, body[d.size..])),
                     Prepend(events, Consume(limits, next, body[d.size..])))
  {
    hide ParseFrames;
    hide Consume;
    var parsed := ParseFrames(limits, next.blobs, next.payloadBytes, body[d.size..]);
    var pushed := Consume(limits, next, body[d.size..]);
    if parsed.Ok? {
      var all := [Frame(d, body[..d.size])] + parsed.value;
      assert all[1..] == parsed.value;
      forall events | Tokens(events) == [Open(d)] + DataTokens(body[..d.size]) + [Close]
        ensures Tokens(events + pushed.events) == FrameTokens(all)
      {
        TokensConcat(events, pushed.events);
      }
    }
  }

  /** One push of a whole string answers like the parser, error for error. */
  lemma ReaderAgreesWithParser(limits: Limits, s: Bytes)
    ensures Agrees(FRESH, ParsePack(limits, s), Consume(limits, FRESH, s))
  {
    if |s| < |MAGIC| {
      assert [] + s == s;
    } else {
      assert [] + s[..|MAGIC|] == s[..|MAGIC|];
      if s[..|MAGIC|] == MAGIC {
        var core := FRESH.(phase := AtHeader);
        ReaderAgreesOnFrames(limits, core, s[|MAGIC|..]);
        EmptyPrepend(Consume(limits, core, s[|MAGIC|..]));
      }
    }
  }

  /** The frames an event stream spells out, rebuilt as it arrives. */
  function Rebuild(tokens: seq<Token>): seq<Frame> {
    if tokens == [] then []
    else
      var frames := Rebuild(tokens[..|tokens| - 1]);
      match tokens[|tokens| - 1]
      case Open(d) => frames + [Frame(d, [])]
      case Data(b) => if frames == [] then [] else AppendByte(frames, b)
      case Close => frames
  }

  function AppendByte(frames: seq<Frame>, b: Byte): seq<Frame>
    requires frames != []
  {
    var last := |frames| - 1;
    frames[last := frames[last].(payload := frames[last].payload + [b])]
  }

  lemma {:induction false} RebuildData(before: seq<Token>, d: Digest, bytes: Bytes)
    ensures Rebuild(before + [Open(d)] + DataTokens(bytes)) == Rebuild(before) + [Frame(d, bytes)]
  {
    var tokens := before + [Open(d)] + DataTokens(bytes);
    if bytes == [] {
      assert tokens == before + [Open(d)] && tokens[..|tokens| - 1] == before;
    } else {
      var init := bytes[..|bytes| - 1];
      RebuildData(before, d, init);
      assert tokens[..|tokens| - 1] == before + [Open(d)] + DataTokens(init);
      assert init + [bytes[|bytes| - 1]] == bytes;
    }
  }

  lemma RebuildOpen(tokens: seq<Token>, d: Digest)
    ensures Rebuild(tokens + [Open(d)]) == Rebuild(tokens) + [Frame(d, [])]
  {
    assert (tokens + [Open(d)])[..|tokens|] == tokens;
  }

  lemma RebuildClose(tokens: seq<Token>)
    ensures Rebuild(tokens + [Close]) == Rebuild(tokens)
  {
  }

  lemma {:induction false} RebuildFrames(before: seq<Token>, frames: seq<Frame>)
    ensures Rebuild(before + FrameTokens(frames)) == Rebuild(before) + frames
    decreases |frames|
  {
    hide Rebuild;
    if frames == [] {
      assert before + FrameTokens(frames) == before;
    } else {
      var f := frames[0];
      var prefix := before + [Open(f.digest)] + DataTokens(f.payload);
      RebuildData(before, f.digest, f.payload);
      RebuildClose(prefix);
      RebuildFrames(prefix + [Close], frames[1..]);
      assert before + FrameTokens(frames) == prefix + [Close] + FrameTokens(frames[1..]);
      assert [f] + frames[1..] == frames;
    }
  }

  /**
   However a stream is cut, the reader finishes on it exactly when it is the
   encoding of frames that fit, and its events then spell out those frames.
   */
  lemma ReaderAcceptsExactlyPacks(limits: Limits, chunks: seq<Bytes>)
    ensures var read := ReadChunks(limits, chunks);
            Answer(read).Ok? <==>
            exists frames :: Fits(limits, 0, 0, frames) && Flatten(chunks) == Encode(frames)
    ensures var read := ReadChunks(limits, chunks);
            Answer(read).Ok? ==>
              var frames := Rebuild(Tokens(read.events));
              && Fits(limits, 0, 0, frames) && Flatten(chunks) == Encode(frames)
              && read.core.blobs == |frames| && read.core.payloadBytes == TotalBytes(frames)
    ensures ParsePack(limits, Flatten(chunks)).Err? ==>
              Answer(ReadChunks(limits, chunks)) == Err(ParsePack(limits, Flatten(chunks)).error)
  {
    var s, read := Flatten(chunks), ReadChunks(limits, chunks);
    ChunkingDoesNotMatter(limits, chunks);
    ReaderAgreesWithParser(limits, s);
    match ParsePack(limits, s) {
      case Ok(frames) =>
        ParseSound(limits, 0, 0, s[|MAGIC|..]);
        assert s == MAGIC + s[|MAGIC|..];
        RebuildFrames([], frames);
        assert [] + FrameTokens(frames) == FrameTokens(frames);
        assert Rebuild([]) + frames == frames;
      case Err(_) =>
        forall frames | Fits(limits, 0, 0, frames)
          ensures s != Encode(frames)
        {
          EncodedPackReads(limits, frames);
        }
    }
  }

  /** Encoding and then reading gives the frames back. */
  lemma EncodedPackReads(limits: Limits, frames: seq<Frame>)
    requires Fits(limits, 0, 0, frames)
    ensures ParsePack(limits, Encode(frames)) == Ok(frames)
  {
    ParseComplete(limits, 0, 0, frames);
    assert Encode(frames)[..|MAGIC|] == MAGIC;
    assert Encode(frames)[|MAGIC|..] == EncodeFrames(frames);
  }
}
