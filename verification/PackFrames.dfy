/**
 What a handler sees of a pack: frames opened, filled and closed by the reader's
 events. The reader's events are always well nested, and a frame never receives
 more bytes than it declared.
 */
module PackFrames {
  import opened Encoding
  import opened Digests
  import opened Pack
  import opened PackGrammar

  /** The frames closed so far, and the one being filled. */
  datatype Deck = Deck(closed: seq<Frame>, current: Option<Frame>)

  /** One event; nothing for an event that does not fit. */
  function PlayOne(deck: Deck, e: PackEvent): Option<Deck> {
    match e
    case Started(d) => if deck.current.None? then Some(deck.(current := Some(Frame(d, [])))) else None
    case Payload(bytes) =>
      if deck.current.None? then None
      else Some(deck.(current := Some(deck.current.value.(payload := deck.current.value.payload + bytes))))
    case Complete =>
      if deck.current.None? then None else Some(Deck(deck.closed + [deck.current.value], None))
  }

  function Play(events: seq<PackEvent>): Option<Deck> {
    if events == [] then Some(Deck([], None))
    else
      match Play(events[..|events| - 1])
      case None => None
      case Some(deck) => PlayOne(deck, events[|events| - 1])
  }

  lemma PlaySnoc(events: seq<PackEvent>, e: PackEvent)
    requires Play(events).Some?
    ensures Play(events + [e]) == PlayOne(Play(events).value, e)
  {
  }

  /** A longer stream closes the same frames and perhaps more. */
  lemma {:induction false} PlayPrefix(a: seq<PackEvent>, b: seq<PackEvent>)
    requires Play(a + b).Some?
    ensures Play(a).Some? && Play(a).value.closed <= Play(a + b).value.closed
    decreases |b|
  {
    if b == [] {
      assert a + b == a;
    } else {
      var init := b[..|b| - 1];
      assert (a + b)[..|a + b| - 1] == a + init;
      PlayPrefix(a, init);
    }
  }

  /** The frame being filled is the one the reader is in, short of exactly what the reader still expects. */
  predicate Abreast(deck: Deck, core: Core) {
    && (deck.current.Some? <==> core.phase.InPayload?)
    && (deck.current.Some? ==>
          |deck.current.value.payload| + core.remaining == deck.current.value.digest.size)
    && |deck.closed| + (if deck.current.Some? then 1 else 0) == core.blobs
    && forall i | 0 <= i < |deck.closed| :: |deck.closed[i].payload| == deck.closed[i].digest.size
  }

  lemma TurnPlays(limits: Limits, core: Core, input: Bytes, before: seq<PackEvent>)
    requires ValidCore(limits, core) && TakeTurn(limits, core, input).Go?
    requires Play(before).Some? && Abreast(Play(before).value, core)
    ensures var t := TakeTurn(limits, core, input);
            Play(before + t.events).Some? && Abreast(Play(before + t.events).value, t.core)
  {
    var t := TakeTurn(limits, core, input);
    PlayFew(before, t.events);
    hide Play;
    if core.phase.AtHeader? {
      hide ParseHeader;
    }
  }

  /** One or two more events. */
  lemma PlayFew(before: seq<PackEvent>, events: seq<PackEvent>)
    requires Play(before).Some? && |events| <= 2
    ensures match |events|
            case 0 => Play(before + events) == Play(before)
            case 1 => Play(before + events) == PlayOne(Play(before).value, events[0])
            case _ =>
              PlayOne(Play(before).value, events[0]).Some? ==>
                Play(before + events) == PlayOne(PlayOne(Play(before).value, events[0]).value, events[1])
  {
    if events == [] {
      assert before + events == before;
    } else {
      PlaySnoc(before, events[0]);
      var after := before + [events[0]];
      if |events| == 2 {
        assert before + events == after + [events[1]];
        if Play(after).Some? {
          PlaySnoc(after, events[1]);
        }
      } else {
        assert before + events == after;
      }
    }
  }

  lemma AbreastWaiting(limits: Limits, core: Core, input: Bytes, deck: Deck)
    requires ValidCore(limits, core) && TakeTurn(limits, core, input).Wait?
    requires Abreast(deck, core)
    ensures Abreast(deck, TakeTurn(limits, core, input).core)
  {
  }

  lemma {:induction false} ConsumePlays(limits: Limits, core: Core, input: Bytes, before: seq<PackEvent>)
    requires ValidCore(limits, core) && Consume(limits, core, input).Accepted?
    requires Play(before).Some? && Abreast(Play(before).value, core)
    ensures var pushed := Consume(limits, core, input);
            Play(before + pushed.events).Some? && Abreast(Play(before + pushed.events).value, pushed.core)
    decreases |input|
  {
    hide Abreast;
    hide TakeTurn;
    hide Play;
    hide ValidCore;
    var t := TakeTurn(limits, core, input);
    if t.Wait? {
      AbreastWaiting(limits, core, input, Play(before).value);
      assert before + [] == before;
    } else {
      TurnPlays(limits, core, input, before);
      var rest := Consume(limits, t.core, input[t.used..]);
      ConsumePlays(limits, t.core, input[t.used..], before + t.events);
      assert before + (t.events + rest.events) == before + t.events + rest.events;
    }
  }

  /** Whatever the chunks, the events a reader has given form frames, and it is abreast of them. */
  lemma {:induction false} ReadingPlays(limits: Limits, chunks: seq<Bytes>)
    requires ReadChunks(limits, chunks).Accepted?
    ensures var read := ReadChunks(limits, chunks);
            Play(read.events).Some? && Abreast(Play(read.events).value, read.core)
  {
    if chunks != [] {
      var init, last := chunks[..|chunks| - 1], chunks[|chunks| - 1];
      ReadingPlays(limits, init);
      var first := ReadChunks(limits, init);
      ConsumePlays(limits, first.core, last, first.events);
    }
  }

  /** What becomes of the frame being filled: it only gains, and closes as it is. */
  predicate Extends(a: Deck, b: Deck) {
    a.current.Some? ==>
      var n, f := |a.closed|, a.current.value;
      if n < |b.closed| then b.closed[n].digest == f.digest && f.payload <= b.closed[n].payload
      else b.current.Some? && b.current.value.digest == f.digest && f.payload <= b.current.value.payload
  }

  lemma PlayOneExtends(a: Deck, b: Deck, e: PackEvent)
    requires a.closed <= b.closed && Extends(a, b) && PlayOne(b, e).Some?
    ensures Extends(a, PlayOne(b, e).value)
  {
    if a.current.Some? && |b.closed| == |a.closed| {
      assert b.closed == a.closed;
    }
  }

  lemma {:induction false} PlayExtends(a: seq<PackEvent>, b: seq<PackEvent>)
    requires Play(a + b).Some?
    ensures Play(a).Some? && Extends(Play(a).value, Play(a + b).value)
    decreases |b|
  {
    if b == [] {
      assert a + b == a;
    } else {
      var init, e := b[..|b| - 1], b[|b| - 1];
      assert (a + b)[..|a + b| - 1] == a + init;
      PlayExtends(a, init);
      PlayPrefix(a, init);
      hide Extends;
      PlayOneExtends(Play(a).value, Play(a + init).value, e);
    }
  }

  /** Between two events as at the end of a chunk, no frame holds more than it declared. */
  lemma NoFrameOverflows(limits: Limits, chunks: seq<Bytes>, played: seq<PackEvent>, events: seq<PackEvent>, core: Core)
    requires ReadChunks(limits, chunks) == Accepted(played + events, core)
    ensures Play(played).Some?
    ensures var deck := Play(played).value;
            && (deck.current.Some? ==> |deck.current.value.payload| <= deck.current.value.digest.size)
            && (forall i | 0 <= i < |deck.closed| :: |deck.closed[i].payload| == deck.closed[i].digest.size)
  {
    hide ReadChunks;
    hide Play;
    ReadingPlays(limits, chunks);
    PlayExtends(played, events);
    PlayPrefix(played, events);
    var deck, end := Play(played).value, Play(played + events).value;
    forall i | 0 <= i < |deck.closed| ensures |deck.closed[i].payload| == deck.closed[i].digest.size {
      assert deck.closed[i] == end.closed[i];
    }
  }

  lemma ReadMore(limits: Limits, chunks: seq<Bytes>, chunk: Bytes)
    ensures ReadChunks(limits, chunks + [chunk]) == Then(limits, ReadChunks(limits, chunks), chunk)
  {
  }

  /** A refusal is final, so a stream that is accepted was accepted all along. */
  lemma {:induction false} ReadPrefix(limits: Limits, a: seq<Bytes>, b: seq<Bytes>)
    requires ReadChunks(limits, a + b).Accepted?
    ensures ReadChunks(limits, a).Accepted?
    ensures ReadChunks(limits, a).events <= ReadChunks(limits, a + b).events
    decreases |b|
  {
    if b == [] {
      assert a + b == a;
    } else {
      assert (a + b)[..|a + b| - 1] == a + b[..|b| - 1];
      ReadPrefix(limits, a, b[..|b| - 1]);
    }
  }

  /** The frames as a list, the open one last. */
  function Laid(deck: Deck): seq<Frame> {
    deck.closed + (if deck.current.Some? then [deck.current.value] else [])
  }

  function ExtendLast(frames: seq<Frame>, bytes: Bytes): seq<Frame>
    requires frames != []
  {
    var last := |frames| - 1;
    frames[last := frames[last].(payload := frames[last].payload + bytes)]
  }

  lemma {:induction false} RebuildBytes(tokens: seq<Token>, bytes: Bytes)
    requires Rebuild(tokens) != []
    ensures Rebuild(tokens + DataTokens(bytes)) == ExtendLast(Rebuild(tokens), bytes)
  {
    var frames := Rebuild(tokens);
    if bytes == [] {
      assert tokens + DataTokens(bytes) == tokens;
      assert frames[|frames| - 1].payload + bytes == frames[|frames| - 1].payload;
    } else {
      var init, b := bytes[..|bytes| - 1], bytes[|bytes| - 1];
      RebuildBytes(tokens, init);
      assert (tokens + DataTokens(bytes))[..|tokens| + |bytes| - 1] == tokens + DataTokens(init);
      assert frames[|frames| - 1].payload + init + [b] == frames[|frames| - 1].payload + bytes;
      assert AppendByte(ExtendLast(frames, init), b) == ExtendLast(frames, bytes);
    }
  }

  lemma RebuildEvent(tokens: seq<Token>, deck: Deck, e: PackEvent)
    requires Rebuild(tokens) == Laid(deck) && PlayOne(deck, e).Some?
    ensures Rebuild(tokens + EventTokens(e)) == Laid(PlayOne(deck, e).value)
  {
    match e {
      case Started(d) => RebuildStarted(tokens, deck, d);
      case Complete => RebuildComplete(tokens, deck);
      case Payload(bytes) => RebuildPayload(tokens, deck, bytes);
    }
  }

  lemma RebuildStarted(tokens: seq<Token>, deck: Deck, d: Digest)
    requires Rebuild(tokens) == Laid(deck) && deck.current.None?
    ensures Rebuild(tokens + EventTokens(Started(d))) == Laid(PlayOne(deck, Started(d)).value)
  {
    RebuildOpen(tokens, d);
    hide Rebuild;
    assert deck.closed + [] == deck.closed;
  }

  lemma RebuildComplete(tokens: seq<Token>, deck: Deck)
    requires Rebuild(tokens) == Laid(deck) && deck.current.Some?
    ensures Rebuild(tokens + EventTokens(Complete)) == Laid(PlayOne(deck, Complete).value)
  {
    RebuildClose(tokens);
    hide Rebuild;
    CompleteLays(deck);
    hide Laid;
    hide PlayOne;
  }

  lemma RebuildPayload(tokens: seq<Token>, deck: Deck, bytes: Bytes)
    requires Rebuild(tokens) == Laid(deck) && deck.current.Some?
    ensures Rebuild(tokens + EventTokens(Payload(bytes))) == Laid(PlayOne(deck, Payload(bytes)).value)
  {
    assert Laid(deck) != [];
    hide Rebuild;
    RebuildBytes(tokens, bytes);
    assert EventTokens(Payload(bytes)) == DataTokens(bytes);
    ExtendCurrent(deck, bytes);
    hide Laid;
    hide PlayOne;
  }

  /** Playing the events and rebuilding from the tokens lay out the same frames. */
  lemma {:induction false} PlayRebuilds(events: seq<PackEvent>)
    requires Play(events).Some?
    ensures Laid(Play(events).value) == Rebuild(Tokens(events))
  {
    hide Rebuild;
    hide Laid;
    if events == [] {
      RebuildNothing();
    } else {
      var init, e := events[..|events| - 1], events[|events| - 1];
      PlayRebuilds(init);
      TokensConcat(init, [e]);
      assert init + [e] == events;
      assert Tokens([e]) == EventTokens(e) + [];
      assert EventTokens(e) + [] == EventTokens(e);
      RebuildEvent(Tokens(init), Play(init).value, e);
    }
  }

  lemma RebuildNothing()
    ensures Rebuild([]) == Laid(Deck([], None))
  {
  }

  lemma ExtendCurrent(deck: Deck, bytes: Bytes)
    requires deck.current.Some?
    ensures ExtendLast(Laid(deck), bytes) == Laid(PlayOne(deck, Payload(bytes)).value)
  {
  }

  lemma CompleteLays(deck: Deck)
    requires deck.current.Some?
    ensures Laid(deck) == Laid(PlayOne(deck, Complete).value)
  {
  }

  /** The frames a run of events lays out. */
  method CollectFrames(events: seq<PackEvent>) returns (blobs: seq<Frame>)
    requires Play(events).Some?
    ensures blobs == Laid(Play(events).value)
  {
    blobs := [];
    for i := 0 to |events|
      invariant Play(events[..i]).Some? && blobs == Laid(Play(events[..i]).value)
    {
      assert events[..i] + [events[i]] == events[..i + 1];
      assert events[..i + 1] + events[i + 1..] == events;
      PlayPrefix(events[..i + 1], events[i + 1..]);
      PlaySnoc(events[..i], events[i]);
      ghost var deck := Play(events[..i]).value;
      match events[i] {
        case Started(digest) => blobs := blobs + [Frame(digest, [])];
        case Payload(payload) =>
          ExtendCurrent(deck, payload);
          var last := |blobs| - 1;
          blobs := blobs[last := blobs[last].(payload := blobs[last].payload + payload)];
        case Complete => CompleteLays(deck);
      }
    }
    assert events[..|events|] == events;
  }

  /** What one push of a whole pack and the boundary test after it say about the parse. */
  lemma WholePush(limits: Limits, bytes: Bytes)
    ensures match Consume(limits, FRESH, bytes)
            case Refused(error) => ParsePack(limits, bytes) == Err(error)
            case Accepted(events, core) =>
              && Play(events).Some?
              && match Finish(core)
                 case Err(error) => ParsePack(limits, bytes) == Err(error)
                 case Ok(_) => ParsePack(limits, bytes) == Ok(Laid(Play(events).value))
  {
    ReaderAgreesWithParser(limits, bytes);
    hide ParsePack;
    var pushed := Consume(limits, FRESH, bytes);
    if pushed.Accepted? {
      ConsumePlays(limits, FRESH, bytes, []);
      assert [] + pushed.events == pushed.events;
      if Finish(pushed.core).Ok? {
        WholeFrames(pushed.events, ParsePack(limits, bytes).value);
      }
    }
  }

  lemma WholeFrames(events: seq<PackEvent>, frames: seq<Frame>)
    requires Play(events).Some? && Tokens(events) == FrameTokens(frames)
    ensures Laid(Play(events).value) == frames
  {
    hide Play;
    hide Laid;
    hide Tokens;
    hide FrameTokens;
    PlayRebuilds(events);
    RebuildFrames([], frames);
    assert Rebuild([]) == [];
    hide Rebuild;
    assert [] + FrameTokens(frames) == FrameTokens(frames);
    assert [] + frames == frames;
  }

  /** Read a whole pack held in memory with one push: it answers like the parser, error for error. */
  method ReadPack(bytes: Bytes, maxBlobBytes: U64, maxBlobs: U64, maxPayloadBytes: U64) returns (r: Result<seq<Frame>>)
    ensures r == ParsePack(Limits(maxBlobBytes, maxBlobs, maxPayloadBytes), bytes)
  {
    var reader := new PackReader(maxBlobBytes, maxBlobs, maxPayloadBytes);
    var pushed := reader.Push(bytes);
    WholePush(reader.limits, bytes);
    hide ParsePack;
    hide Consume;
    hide Play;
    if pushed.Err? {
      return Err(pushed.error);
    }
    var blobs := CollectFrames(pushed.value);
    var ended := reader.AtBoundary();
    if ended.Err? {
      return Err(ended.error);
    }
    return Ok(blobs);
  }
}
