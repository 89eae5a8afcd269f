/**
 The incremental reader of uploaded packs, and the proof that where a network
 cuts the stream into chunks does not matter.
 */
module Pack {
  import opened Encoding
  import opened Digests

  /** The ASCII bytes `MBXPACK1`. */
  const MAGIC: Bytes := [0x4D, 0x42, 0x58, 0x50, 0x41, 0x43, 0x4B, 0x31]

  const HEADER_BYTES := 41

  datatype PackEvent =
    | Started(digest: Digest)
    | Payload(bytes: Bytes)
    | Complete

  datatype PackError =
    | BadMagic
    | UnknownAlgorithm(tag: Byte)
    | Truncated
    | BlobTooLarge(size: U64, limit: U64)
    | TooManyBlobs(limit: U64)
    | TooManyBytes(limit: U64)

  datatype Limits = Limits(maxBlobBytes: U64, maxBlobs: U64, maxPayloadBytes: U64)

  datatype Phase = AtMagic | AtHeader | InPayload

  /** Everything a reader remembers between two chunks. */
  datatype Core = Core(phase: Phase, buffer: Bytes, blobs: nat, payloadBytes: nat, remaining: nat)

  const FRESH := Core(AtMagic, [], 0, 0, 0)

  datatype Result<+T> = Ok(value: T) | Err(error: PackError)

  datatype Pushed = Accepted(events: seq<PackEvent>, core: Core) | Refused(error: PackError)

  /** What holds of a reader that has refused nothing so far. */
  predicate ValidCore(limits: Limits, core: Core) {
    && core.blobs <= limits.maxBlobs
    && core.payloadBytes <= limits.maxPayloadBytes
    && match core.phase
       case AtMagic => |core.buffer| < |MAGIC| && core.remaining == 0
       case AtHeader => |core.buffer| < HEADER_BYTES && core.remaining == 0
       case InPayload => core.buffer == [] && 0 < core.remaining <= limits.maxBlobBytes
  }

  function ParseHeader(limits: Limits, header: Bytes): (r: Result<Digest>)
    requires |header| == HEADER_BYTES
    ensures r.Ok? ==> r.value.size <= limits.maxBlobBytes
  {
    if header[0] != 1 && header[0] != 2 then Err(UnknownAlgorithm(header[0]))
    else
      BigEndianOfFromBigEndian(header[33..]);
      EightBytesHoldU64();
      var size: U64 := FromBigEndian(header[33..]);
      if size > limits.maxBlobBytes then Err(BlobTooLarge(size, limits.maxBlobBytes))
      else Ok(Digest(if header[0] == 1 then "blake3" else "sha256", EncodeHex(header[1..33]), size))
  }

  /** The reader after a frame header, and what it announces. */
  function Begin(core: Core, d: Digest): Core {
    core.(phase := if d.size == 0 then AtHeader else InPayload,
          buffer := [], blobs := core.blobs + 1, remaining := d.size)
  }

  function BeginEvents(d: Digest): seq<PackEvent> {
    if d.size == 0 then [Started(d), Complete] else [Started(d)]
  }

  /** The reader after `take` payload bytes. */
  function Advance(core: Core, take: nat): Core
    requires take <= core.remaining
  {
    core.(phase := if take == core.remaining then AtHeader else InPayload,
          payloadBytes := core.payloadBytes + take, remaining := core.remaining - take)
  }

  function AdvanceEvents(core: Core, bytes: Bytes): seq<PackEvent> {
    if |bytes| == core.remaining then [Payload(bytes), Complete] else [Payload(bytes)]
  }

  function Prepend(events: seq<PackEvent>, pushed: Pushed): Pushed {
    match pushed
    case Accepted(more, core) => Accepted(events + more, core)
    case Refused(_) => pushed
  }

  /** One turn of the reader's loop: it waits for input, refuses, or uses `used` bytes and goes on. */
  datatype Turn = Wait(core: Core) | Fail(error: PackError) | Go(events: seq<PackEvent>, core: Core, used: nat)

  function MagicTurn(limits: Limits, core: Core, input: Bytes): (t: Turn)
    requires ValidCore(limits, core) && core.phase.AtMagic?
    ensures t.Wait? ==> ValidCore(limits, t.core)
    ensures t.Go? ==> ValidCore(limits, t.core) && 0 < t.used <= |input|
  {
    var need := |MAGIC| - |core.buffer|;
    if |input| < need then Wait(core.(buffer := core.buffer + input))
    else if core.buffer + input[..need] != MAGIC then Fail(BadMagic)
    else Go([], core.(phase := AtHeader, buffer := []), need)
  }

  function HeaderTurn(limits: Limits, core: Core, input: Bytes): (t: Turn)
    requires ValidCore(limits, core) && core.phase.AtHeader?
    ensures t.Wait? ==> ValidCore(limits, t.core)
    ensures t.Go? ==> ValidCore(limits, t.core) && 0 < t.used <= |input|
  {
    var need := HEADER_BYTES - |core.buffer|;
    if |input| < need then Wait(core.(buffer := core.buffer + input))
    else
      match ParseHeader(limits, core.buffer + input[..need])
      case Err(error) => Fail(error)
      case Ok(d) =>
        if core.blobs + 1 > limits.maxBlobs then Fail(TooManyBlobs(limits.maxBlobs))
        else Go(BeginEvents(d), Begin(core, d), need)
  }

  function PayloadTurn(limits: Limits, core: Core, input: Bytes): (t: Turn)
    requires ValidCore(limits, core) && core.phase.InPayload?
    ensures t.Wait? ==> ValidCore(limits, t.core)
    ensures t.Go? ==> ValidCore(limits, t.core) && 0 < t.used <= |input|
  {
    if input == [] then Wait(core)
    else
      var take := Min(core.remaining, |input|);
      if core.payloadBytes + take > limits.maxPayloadBytes then Fail(TooManyBytes(limits.maxPayloadBytes))
      else Go(AdvanceEvents(core, input[..take]), Advance(core, take), take)
  }

  function TakeTurn(limits: Limits, core: Core, input: Bytes): (t: Turn)
    requires ValidCore(limits, core)
    ensures t.Wait? ==> ValidCore(limits, t.core)
    ensures t.Go? ==> ValidCore(limits, t.core) && 0 < t.used <= |input|
  {
    match core.phase
    case AtMagic => MagicTurn(limits, core, input)
    case AtHeader => HeaderTurn(limits, core, input)
    case InPayload => PayloadTurn(limits, core, input)
  }

  /** What one chunk does to a reader. */
  function Consume(limits: Limits, core: Core, input: Bytes): (pushed: Pushed)
    requires ValidCore(limits, core)
    ensures pushed.Accepted? ==> ValidCore(limits, pushed.core)
    decreases |input|
  {
    match TakeTurn(limits, core, input)
    case Wait(after) => Accepted([], after)
    case Fail(error) => Refused(error)
    case Go(events, after, used) => Prepend(events, Consume(limits, after, input[used..]))
  }

  function Finish(core: Core): (r: Result<()>) {
    if core.phase.AtHeader? && core.buffer == [] then Ok(()) else Err(Truncated)
  }

  /** What one turn of the loop reports: input ran out, a refusal, or events and the input left. */
  datatype Progress = Waiting | Failed(error: PackError) | Going(events: seq<PackEvent>, rest: Bytes)

  /** The reader itself, whose fields every chunk updates. */
  class PackReader {
    const limits: Limits
    var phase: Phase
    var buffer: Bytes
    var blobs: nat
    var payloadBytes: nat
    var remaining: nat

    function State(): Core
      reads this
    {
      Core(phase, buffer, blobs, payloadBytes, remaining)
    }

    predicate Valid()
      reads this
    {
      ValidCore(limits, State())
    }

    constructor (maxBlobBytes: U64, maxBlobs: U64, maxPayloadBytes: U64)
      ensures Valid() && State() == FRESH
      ensures limits == Limits(maxBlobBytes, maxBlobs, maxPayloadBytes)
    {
      limits := Limits(maxBlobBytes, maxBlobs, maxPayloadBytes);
      phase, buffer, blobs, payloadBytes, remaining := AtMagic, [], 0, 0, 0;
    }

    /** Move input into the buffer, at most what it lacks of `wanted`; `full` says that it lacks nothing. */
    method Fill(input: Bytes, wanted: nat) returns (full: bool, rest: Bytes)
      requires |buffer| < wanted
      modifies this`buffer
      ensures full == (|old(buffer)| + |input| >= wanted)
      ensures var take := Min(wanted - |old(buffer)|, |input|);
              buffer == old(buffer) + input[..take] && rest == input[take..]
    {
      var take := Min(wanted - |buffer|, |input|);
      buffer := buffer + input[..take];
      rest := input[take..];
      full := |buffer| == wanted;
    }

    /** Take the magic prefix. */
    method ReadMagic(input: Bytes) returns (p: Progress)
      requires Valid() && phase.AtMagic?
      modifies this
      ensures Follows(p, TakeTurn(limits, old(State()), input), input)
      ensures p.Going? || p.Waiting? ==> Valid()
      ensures blobs == old(blobs) && payloadBytes == old(payloadBytes)
    {
      var full, rest := Fill(input, |MAGIC|);
      if !full {
        return Waiting;
      }
      if buffer != MAGIC {
        return Failed(BadMagic);
      }
      buffer := [];
      phase := AtHeader;
      return Going([], rest);
    }

    /** Take one frame header. */
    method ReadHeader(input: Bytes) returns (p: Progress)
      requires Valid() && phase.AtHeader?
      modifies this
      ensures Follows(p, TakeTurn(limits, old(State()), input), input)
      ensures p.Going? || p.Waiting? ==> Valid()
      ensures old(blobs) <= blobs <= old(blobs) + 1 && payloadBytes == old(payloadBytes)
    {
      if input == [] && buffer == [] {
        assert buffer + input == buffer;
        return Waiting;
      }
      var full, rest := Fill(input, HEADER_BYTES);
      if !full {
        return Waiting;
      }
      var header := ParseHeader(limits, buffer);
      if header.Err? {
        return Failed(header.error);
      }
      var digest := header.value;
      buffer := [];
      remaining := digest.size;
      blobs := blobs + 1;
      if blobs > limits.maxBlobs {
        return Failed(TooManyBlobs(limits.maxBlobs));
      }
      var events := [Started(digest)];
      phase := InPayload;
      if remaining == 0 {
        events := events + [Complete];
        phase := AtHeader;
      }
      return Going(events, rest);
    }

    /** Take as much of the current frame's payload as there is. */
    method ReadPayload(input: Bytes) returns (p: Progress)
      requires Valid() && phase.InPayload?
      modifies this
      ensures Follows(p, TakeTurn(limits, old(State()), input), input)
      ensures p.Going? || p.Waiting? ==> Valid()
      ensures blobs == old(blobs) && old(payloadBytes) <= payloadBytes <= old(payloadBytes) + |input|
    {
      if input == [] {
        return Waiting;
      }
      var take := Min(remaining, |input|);
      remaining := remaining - take;
      payloadBytes := payloadBytes + take;
      if payloadBytes > limits.maxPayloadBytes {
        return Failed(TooManyBytes(limits.maxPayloadBytes));
      }
      var events := [Payload(input[..take])];
      if remaining == 0 {
        events := events + [Complete];
        phase := AtHeader;
      }
      return Going(events, input[take..]);
    }

    /** An error in the middle of a magic, a header or a frame. */
    method AtBoundary() returns (r: Result<()>)
      ensures r == if phase.AtHeader? && buffer == [] then Ok(()) else Err(Truncated)
    {
      r := Finish(State());
    }

    /** The progress one turn made is what `TakeTurn` says. */
    ghost predicate Follows(p: Progress, turn: Turn, input: Bytes)
      reads this
    {
      match (p, turn)
      case (Waiting, Wait(core)) => State() == core
      case (Failed(e1), Fail(e2)) => e1 == e2
      case (Going(events, rest), Go(expected, core, used)) =>
        used <= |input| && events == expected && rest == input[used..] && State() == core
      case _ => false
    }

    /**
     Turn after turn until the chunk is used up or refused, as `Consume` says. The
     counters pass their limits by at most what the refused turn added.
     */
    method Push(chunk: Bytes) returns (r: Result<seq<PackEvent>>)
      requires Valid()
      modifies this
      ensures match Consume(limits, old(State()), chunk)
              case Accepted(events, core) => r == Ok(events) && State() == core && Valid()
              case Refused(error) => r == Err(error)
      ensures blobs <= limits.maxBlobs + 1 && payloadBytes <= limits.maxPayloadBytes + |chunk|
    {
      var events: seq<PackEvent> := [];
      var rest := chunk;
      EmptyPrepend(Consume(limits, State(), chunk));
      while true
        invariant Valid() && |rest| <= |chunk|
        invariant Consume(limits, old(State()), chunk) == Prepend(events, Consume(limits, State(), rest))
        decreases |rest|
      {
        ghost var before := State();
        var progress: Progress;
        match phase {
          case AtMagic => progress := ReadMagic(rest);
          case AtHeader => progress := ReadHeader(rest);
          case InPayload => progress := ReadPayload(rest);
        }
        match progress {
          case Waiting =>
            assert events + [] == events;
            return Ok(events);
          case Failed(error) => return Err(error);
          case Going(more, left) =>
            ResumeTurn(limits, before, rest, events);
            events := events + more;
            rest := left;
        }
      }
    }
  }

  /** Consuming can be resumed after a turn that went on. */
  lemma ResumeTurn(limits: Limits, core: Core, input: Bytes, already: seq<PackEvent>)
    requires ValidCore(limits, core)
    requires TakeTurn(limits, core, input).Go?
    ensures var t := TakeTurn(limits, core, input);
            Prepend(already, Consume(limits, core, input)) ==
            Prepend(already + t.events, Consume(limits, t.core, input[t.used..]))
  {
  }

  lemma PrependTwice(first: seq<PackEvent>, second: seq<PackEvent>, pushed: Pushed)
    ensures Prepend(first, Prepend(second, pushed)) == Prepend(first + second, pushed)
  {
  }

  // Chunking.

  /** An event stream with its payload cut into single bytes: what remains once chunk boundaries are forgotten. */
  datatype Token = Open(digest: Digest) | Data(byte: Byte) | Close

  function EventTokens(e: PackEvent): seq<Token> {
    match e
    case Started(d) => [Open(d)]
    case Payload(bytes) => seq(|bytes|, i requires 0 <= i < |bytes| => Data(bytes[i]))
    case Complete => [Close]
  }

  function Tokens(events: seq<PackEvent>): seq<Token> {
    if events == [] then [] else EventTokens(events[0]) + Tokens(events[1..])
  }

  lemma TokensCons(e: PackEvent, rest: seq<PackEvent>)
    ensures Tokens([e] + rest) == EventTokens(e) + Tokens(rest)
  {
    assert ([e] + rest)[1..] == rest;
  }

  lemma {:induction false} TokensConcat(a: seq<PackEvent>, b: seq<PackEvent>)
    ensures Tokens(a + b) == Tokens(a) + Tokens(b)
  {
    if a == [] {
      assert a + b == b;
    } else {
      hide Tokens;
      hide EventTokens;
      var first, t := a[0], a[1..];
      TokensConcat(t, b);
      TokensCons(first, t);
      TokensCons(first, t + b);
      FrontFirst(a, b);
      Regroup(EventTokens(first), Tokens(t), Tokens(b));
    }
  }

  lemma FrontFirst<T>(a: seq<T>, b: seq<T>)
    requires a != []
    ensures [a[0]] + a[1..] == a && [a[0]] + (a[1..] + b) == a + b
  {
  }

  lemma Regroup<T>(a: seq<T>, b: seq<T>, c: seq<T>)
    ensures a + (b + c) == a + b + c
  {
  }

  /** Two pushes are alike when a caller who ignores payload boundaries cannot tell them apart. */
  predicate Alike(p: Pushed, q: Pushed) {
    match (p, q)
    case (Accepted(e1, c1), Accepted(e2, c2)) => Tokens(e1) == Tokens(e2) && c1 == c2
    case (Refused(x), Refused(y)) => x == y
    case _ => false
  }

  lemma AlikePrepend(events: seq<PackEvent>, p: Pushed, q: Pushed)
    requires Alike(p, q)
    ensures Alike(Prepend(events, p), Prepend(events, q))
  {
    if p.Accepted? {
      TokensConcat(events, p.events);
      TokensConcat(events, q.events);
    }
  }

  /** One push after another. */
  function Then(limits: Limits, first: Pushed, input: Bytes): (r: Pushed)
    requires first.Accepted? ==> ValidCore(limits, first.core)
    ensures r.Accepted? ==> ValidCore(limits, r.core)
  {
    match first
    case Refused(_) => first
    case Accepted(events, core) => Prepend(events, Consume(limits, core, input))
  }

  lemma ThenPrepend(limits: Limits, events: seq<PackEvent>, first: Pushed, input: Bytes)
    requires first.Accepted? ==> ValidCore(limits, first.core)
    ensures Then(limits, Prepend(events, first), input) == Prepend(events, Then(limits, first, input))
  {
  }

  lemma EmptyPrepend(pushed: Pushed)
    ensures Prepend([], pushed) == pushed
  {
  }

  /** More input does not change a turn that had enough. */
  lemma TurnExtends(limits: Limits, core: Core, a: Bytes, b: Bytes)
    requires ValidCore(limits, core)
    requires !TakeTurn(limits, core, a).Wait?
    requires core.phase.InPayload? ==> core.remaining <= |a|
    ensures TakeTurn(limits, core, a + b) == TakeTurn(limits, core, a)
  {
    var need := match core.phase
      case AtMagic => |MAGIC| - |core.buffer|
      case AtHeader => HEADER_BYTES - |core.buffer|
      case InPayload => core.remaining;
    assert (a + b)[..need] == a[..need];
  }

  /** A turn that waits for a whole prefix takes it in pieces. */
  lemma TurnWaits(limits: Limits, core: Core, a: Bytes, b: Bytes)
    requires ValidCore(limits, core) && !core.phase.InPayload?
    requires TakeTurn(limits, core, a).Wait?
    ensures (var later := core.(buffer := core.buffer + a);
             var whole := TakeTurn(limits, core, a + b);
             && TakeTurn(limits, core, a).core == later
             && TakeTurn(limits, later, b) == (if whole.Go? then whole.(used := whole.used - |a|) else whole)
             && (whole.Go? ==> |a| <= whole.used && (a + b)[whole.used..] == b[whole.used - |a|..]))
  {
    var later := core.(buffer := core.buffer + a);
    var need := (if core.phase.AtMagic? then |MAGIC| else HEADER_BYTES) - |core.buffer|;
    assert core.buffer + (a + b) == later.buffer + b;
    if |a| + |b| >= need {
      assert core.buffer + (a + b)[..need] == later.buffer + b[..need - |a|];
      assert (a + b)[need..] == b[need - |a|..];
    }
  }

  /** Cutting a chunk in two changes nothing but where payload is cut. */
  lemma {:induction false} ConsumeConcat(limits: Limits, core: Core, a: Bytes, b: Bytes)
    requires ValidCore(limits, core)
    ensures Alike(Consume(limits, core, a + b), Then(limits, Consume(limits, core, a), b))
    decreases |a|
  {
    var t := TakeTurn(limits, core, a);
    if t.Wait? {
      EmptyPrepend(Consume(limits, t.core, b));
      if core.phase.InPayload? {
        assert a + b == b;
      } else {
        TurnWaits(limits, core, a, b);
      }
    } else if core.phase.InPayload? && |a| < core.remaining {
      if t.Go? {
        assert a[|a|..] == [] && a[..|a|] == a;
        assert Consume(limits, core, a) == Accepted([Payload(a)] + [], t.core);
        assert [Payload(a)] + [] == [Payload(a)];
        SplitPayload(limits, core, a, b);
      } 
    } else {
      TurnExtends(limits, core, a, b);
      if t.Go? {
        assert (a + b)[t.used..] == a[t.used..] + b;
        ConsumeConcat(limits, t.core, a[t.used..], b);
        AlikePrepend(t.events, Consume(limits, t.core, a[t.used..] + b),
                     Then(limits, Consume(limits, t.core, a[t.used..]), b));
        ThenPrepend(limits, t.events, Consume(limits, t.core, a[t.used..]), b);
      }
    }
  }

  lemma AlikeTokens(first: seq<PackEvent>, second: seq<PackEvent>, tail: Pushed)
    requires Tokens(first) == Tokens(second)
    ensures Alike(Prepend(first, tail), Prepend(second, tail))
  {
    if tail.Accepted? {
      TokensConcat(first, tail.events);
      TokensConcat(second, tail.events);
    }
  }

  /** One payload event and its two parts are the same bytes. */
  lemma SplitTokens(core: Core, a: Bytes, b: Bytes)
    requires |a| < core.remaining && |a| + |b| <= core.remaining
    ensures Tokens(AdvanceEvents(core, a + b)) == Tokens([Payload(a)] + AdvanceEvents(Advance(core, |a|), b))
  {
    hide Tokens;
    var whole, piece := AdvanceEvents(core, a + b), AdvanceEvents(Advance(core, |a|), b);
    JoinPayload(a, b, whole[1..]);
    assert whole == [Payload(a + b)] + whole[1..];
    assert [Payload(a)] + piece == [Payload(a), Payload(b)] + whole[1..];
  }

  /** The first part of a payload, with nothing after it. */
  lemma StopInPayload(limits: Limits, core: Core, a: Bytes)
    requires ValidCore(limits, core) && core.phase.InPayload?
    requires 0 < |a| < core.remaining
    requires core.payloadBytes + |a| <= limits.maxPayloadBytes
    ensures Consume(limits, core, a) == Accepted([Payload(a)], Advance(core, |a|))
  {
    assert a[..|a|] == a && a[|a|..] == [];
    assert Consume(limits, Advance(core, |a|), []) == Accepted([], Advance(core, |a|));
  }

  /** One turn that takes `c` of a payload, all of the input or to the frame's end. */
  lemma PayloadTurnTaken(limits: Limits, core: Core, c: Bytes, rest: Bytes)
    requires ValidCore(limits, core) && core.phase.InPayload? && 0 < |c| <= core.remaining
    requires rest != [] ==> |c| == core.remaining
    requires core.payloadBytes + |c| <= limits.maxPayloadBytes
    ensures ValidCore(limits, Advance(core, |c|))
    ensures Consume(limits, core, c + rest) == Prepend(AdvanceEvents(core, c), Consume(limits, Advance(core, |c|), rest))
  {
    assert (c + rest)[..|c|] == c && (c + rest)[|c|..] == rest;
    assert TakeTurn(limits, core, c + rest) == Go(AdvanceEvents(core, c), Advance(core, |c|), |c|);
  }

  /** A payload that runs on into the second chunk. */
  lemma SplitPayload(limits: Limits, core: Core, a: Bytes, b: Bytes)
    requires ValidCore(limits, core) && core.phase.InPayload?
    requires 0 < |a| < core.remaining
    requires core.payloadBytes + |a| <= limits.maxPayloadBytes
    ensures Alike(Consume(limits, core, a + b), Prepend([Payload(a)], Consume(limits, Advance(core, |a|), b)))
  {
    var late := Min(core.remaining - |a|, |b|);
    if b == [] {
      assert a + b == a;
      StopInPayload(limits, core, a);
    } else if core.payloadBytes + |a| + late <= limits.maxPayloadBytes {
      hide Consume;
      SplitInTwo(limits, core, a, b[..late], b[late..]);
      assert a + (b[..late] + b[late..]) == a + b[..late] + b[late..] && b[..late] + b[late..] == b;
    } else {
      hide Consume;
      TooMuchPayload(limits, core, a + b);
      TooMuchPayload(limits, Advance(core, |a|), b);
    }
  }

  lemma TooMuchPayload(limits: Limits, core: Core, input: Bytes)
    requires ValidCore(limits, core) && core.phase.InPayload? && input != []
    requires core.payloadBytes + Min(core.remaining, |input|) > limits.maxPayloadBytes
    ensures Consume(limits, core, input) == Refused(TooManyBytes(limits.maxPayloadBytes))
  {
  }

  lemma SplitInTwo(limits: Limits, core: Core, a: Bytes, c: Bytes, rest: Bytes)
    requires ValidCore(limits, core) && core.phase.InPayload?
    requires 0 < |a| && 0 < |c| && |a| + |c| <= core.remaining
    requires rest != [] ==> |a| + |c| == core.remaining
    requires core.payloadBytes + |a| + |c| <= limits.maxPayloadBytes
    ensures ValidCore(limits, Advance(core, |a|))
    ensures Alike(Consume(limits, core, a + c + rest), Prepend([Payload(a)], Consume(limits, Advance(core, |a|), c + rest)))
  {
    var next := Advance(core, |a|);
    assert Advance(core, |a + c|) == Advance(next, |c|);
    PayloadTurnTaken(limits, core, a + c, rest);
    PayloadTurnTaken(limits, next, c, rest);
    hide Consume;
    hide ValidCore;
    SplitTokens(core, a, c);
    hide AdvanceEvents;
    hide Tokens;
    hide Alike;
    var tail := Consume(limits, Advance(next, |c|), rest);
    PrependTwice([Payload(a)], AdvanceEvents(next, c), tail);
    AlikeTokens(AdvanceEvents(core, a + c), [Payload(a)] + AdvanceEvents(next, c), tail);
  }

  lemma JoinPayload(a: Bytes, b: Bytes, rest: seq<PackEvent>)
    ensures Tokens([Payload(a + b)] + rest) == Tokens([Payload(a), Payload(b)] + rest)
  {
    assert EventTokens(Payload(a + b)) == EventTokens(Payload(a)) + EventTokens(Payload(b));
    assert ([Payload(a + b)] + rest)[1..] == rest;
    assert ([Payload(a), Payload(b)] + rest)[1..] == [Payload(b)] + rest;
    assert ([Payload(b)] + rest)[1..] == rest;
  }

  function Flatten(chunks: seq<Bytes>): Bytes {
    if chunks == [] then [] else Flatten(chunks[..|chunks| - 1]) + chunks[|chunks| - 1]
  }

  /** A fresh reader fed chunk after chunk, stopping at the first refusal. */
  function ReadChunks(limits: Limits, chunks: seq<Bytes>): (r: Pushed)
    ensures r.Accepted? ==> ValidCore(limits, r.core)
  {
    if chunks == [] then Accepted([], FRESH)
    else Then(limits, ReadChunks(limits, chunks[..|chunks| - 1]), chunks[|chunks| - 1])
  }

  lemma AlikeThen(limits: Limits, p: Pushed, q: Pushed, input: Bytes)
    requires p.Accepted? ==> ValidCore(limits, p.core)
    requires q.Accepted? ==> ValidCore(limits, q.core)
    requires Alike(p, q)
    ensures Alike(Then(limits, p, input), Then(limits, q, input))
  {
    if p.Accepted? {
      var more := Consume(limits, p.core, input);
      if more.Accepted? {
        TokensConcat(p.events, more.events);
        TokensConcat(q.events, more.events);
      }
    }
  }

  /** Every split of a stream reads like the stream in one piece: same error, or same events, state and counters. */
  lemma {:induction false} ChunkingDoesNotMatter(limits: Limits, chunks: seq<Bytes>)
    ensures Alike(ReadChunks(limits, chunks), Consume(limits, FRESH, Flatten(chunks)))
  {
    if chunks == [] {
      assert FRESH.buffer + [] == FRESH.buffer;
    } else {
      var init, last := chunks[..|chunks| - 1], chunks[|chunks| - 1];
      ChunkingDoesNotMatter(limits, init);
      AlikeThen(limits, ReadChunks(limits, init), Consume(limits, FRESH, Flatten(init)), last);
      ConsumeConcat(limits, FRESH, Flatten(init), last);
    }
  }
}
