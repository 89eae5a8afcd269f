/**
 Serving a pack: the visible blobs of a request, each once, framed as the upload
 side reads them. What one server serves, another accepts as it stands.
 */
module PackServe {
  import opened Encoding
  import opened Digests
  import Memory
  import Pack
  import opened PackGrammar
  import opened Sequences
  import opened Streams
  import PackUpload
  import PackAcceptance

  /** A stored object as it streams: the size storage reports, and what comes of it. */
  datatype Blob = Blob(size: U64, items: seq<Item>)

  /** What storage answers for an object it holds. */
  datatype Holding = Unreadable | Readable(blob: Blob)

  datatype ServeError = TooManyDigests | InvalidDigest | RequestTooLarge | InvalidHeader

  datatype StreamError = Missing(digest: Digest) | ReadFailed | WrongSize | StreamTooLong | StreamTooShort

  /** The announced headers, what is sent before the stream ends or breaks, and whose rows are forgotten on the way. */
  datatype Response = Response(
    contentLength: nat, blobs: nat, payloadBytes: nat, body: Bytes, broke: Option<StreamError>, forgot: set<Digest>)

  datatype Served = Refused(error: ServeError) | Streaming(response: Response)

  function TotalSize(digests: seq<Digest>): nat {
    if digests == [] then 0 else TotalSize(digests[..|digests| - 1]) + digests[|digests| - 1].size
  }

  function Filter(digests: seq<Digest>, visible: set<Digest>): (r: seq<Digest>)
    ensures forall d :: d in r <==> d in digests && d in visible
    ensures Distinct(digests) ==> Distinct(r)
  {
    if digests == [] then []
    else
      var init, last := digests[..|digests| - 1], digests[|digests| - 1];
      assert digests == init + [last];
      if last in visible then Filter(init, visible) + [last] else Filter(init, visible)
  }

  lemma {:induction false} FilterShrinks(digests: seq<Digest>, visible: set<Digest>)
    ensures |Filter(digests, visible)| <= |digests|
    ensures TotalSize(Filter(digests, visible)) <= TotalSize(digests)
  {
    if digests != [] {
      var init, last := digests[..|digests| - 1], digests[|digests| - 1];
      FilterShrinks(init, visible);
      TotalSizeSnoc(Filter(init, visible), last);
    }
  }

  /** It is the answer of the metadata store, whose rows of the namespace these are. */
  lemma {:induction false} FilterIsTheQuery(rows: set<Memory.Key>, ns: Namespace, digests: seq<Digest>)
    ensures Filter(digests, set k | k in rows && k.0 == ns :: k.1) == Memory.VisibleBlobs(rows, ns, digests)
  {
    hide Memory.VisibleBlobs;
    hide Distinct;
    if digests == [] {
      Memory.VisibleNone(rows, ns);
    } else {
      var last := |digests| - 1;
      FilterIsTheQuery(rows, ns, digests[..last]);
      Memory.VisibleBack(rows, ns, digests, last);
      assert digests[..last + 1] == digests;
      assert (ns, digests[last]) in rows ==> (ns, digests[last]).1 in set k | k in rows && k.0 == ns :: k.1;
    }
  }

  /** What a request is answered with. */
  function Answered(request: seq<Digest>, visible: set<Digest>): seq<Digest> {
    Filter(FirstOccurrences(request), visible)
  }

  /** Storage holds the object at its declared size, and delivers it in full. */
  predicate Whole(store: map<Digest, Holding>, d: Digest) {
    && d in store && store[d].Readable? && store[d].blob.size == d.size
    && Delivered(store[d].blob.items).Some? && |Delivered(store[d].blob.items).value| == d.size
  }

  function Content(store: map<Digest, Holding>, d: Digest): Bytes {
    if d in store && store[d].Readable? && Delivered(store[d].blob.items).Some?
    then Delivered(store[d].blob.items).value else []
  }

  function FrameOf(store: map<Digest, Holding>, d: Digest): Frame {
    Frame(d, Content(store, d))
  }

  function FramesOf(store: map<Digest, Holding>, digests: seq<Digest>): seq<Frame> {
    seq(|digests|, i requires 0 <= i < |digests| => FrameOf(store, digests[i]))
  }

  function Announced(digests: seq<Digest>): nat {
    |Pack.MAGIC| + Pack.HEADER_BYTES * |digests| + TotalSize(digests)
  }

  /** A request the server answers with a stream. */
  ghost predicate Acceptable(maxBlobBytes: U64, request: seq<Digest>, visible: set<Digest>) {
    && |request| <= PackUpload.MAX_BATCH_ITEMS
    && (forall i | 0 <= i < |request| :: ValidDigest(request[i]))
    && TotalSize(FirstOccurrences(request)) <= maxBlobBytes
    && Announced(Answered(request, visible)) < U64_LIMIT
  }

  function SaturatingAdd(a: U64, b: U64): U64 {
    if a + b < U64_LIMIT then a + b else U64_LIMIT - 1
  }

  /** The most bytes the transport lets a pack upload carry. */
  function PackLimit(maxBlobBytes: U64): U64 {
    SaturatingAdd(SaturatingAdd(maxBlobBytes, |Pack.MAGIC|), Pack.HEADER_BYTES * PackUpload.MAX_BATCH_ITEMS)
  }

  lemma EmptySums()
    ensures TotalSize([]) == 0 && FirstOccurrences<Digest>([]) == []
  {
  }

  lemma TotalSizeSnoc(digests: seq<Digest>, d: Digest)
    ensures TotalSize(digests + [d]) == TotalSize(digests) + d.size
  {
  }

  lemma {:induction false} TotalSizePrefix(digests: seq<Digest>, n: nat)
    requires n <= |digests|
    ensures TotalSize(digests[..n]) <= TotalSize(digests)
    decreases |digests|
  {
    if n == |digests| {
      assert digests[..n] == digests;
    } else {
      TotalSizePrefix(digests[..|digests| - 1], n);
      assert digests[..|digests| - 1][..n] == digests[..n];
    }
  }

  lemma FirstOccurrencesPrefix(request: seq<Digest>, n: nat)
    requires n <= |request|
    ensures TotalSize(FirstOccurrences(request[..n])) <= TotalSize(FirstOccurrences(request))
  {
    var first := FirstOccurrences(request[..n]);
    FirstOccurrencesInOrder(request, n);
    TotalSizePrefix(FirstOccurrences(request), |first|);
    assert first == FirstOccurrences(request)[..|first|];
  }

  /** The digests of a request, each once, with their total size checked as it grows. */
  method Deduplicate(maxBlobBytes: U64, request: seq<Digest>) returns (error: Option<ServeError>, requested: seq<Digest>)
    ensures error.None? <==>
              (forall i | 0 <= i < |request| :: ValidDigest(request[i]))
              && TotalSize(FirstOccurrences(request)) <= maxBlobBytes
    ensures error.None? ==> requested == FirstOccurrences(request)
  {
    hide ValidDigest;
    hide FirstOccurrences;
    hide TotalSize;
    EmptySums();
    var totalBytes := 0;
    var seen: set<Digest> := {};
    requested := [];
    for i := 0 to |request|
      invariant forall k | 0 <= k < i :: ValidDigest(request[k])
      invariant requested == FirstOccurrences(request[..i])
      invariant seen == set d | d in requested
      invariant totalBytes == TotalSize(requested) <= maxBlobBytes
    {
      var digest := request[i];
      if !ValidDigest(digest) {
        return Some(InvalidDigest), [];
      }
      assert request[..i + 1] == request[..i] + [digest];
      FirstOccurrencesSnoc(request[..i], digest);
      if digest !in seen {
        seen := seen + {digest};
        TotalSizeSnoc(requested, digest);
        totalBytes := totalBytes + digest.size;
        FirstOccurrencesPrefix(request, i + 1);
        if totalBytes >= U64_LIMIT || totalBytes > maxBlobBytes {
          return Some(RequestTooLarge), [];
        }
        requested := requested + [digest];
      }
    }
    assert request[..|request|] == request;
    return None, requested;
  }

  /** The announced length, computed with overflow checked. */
  method Announce(visible: seq<Digest>) returns (error: Option<ServeError>, packBytes: nat, payloadBytes: nat)
    ensures error.None? <==>
              (forall i | 0 <= i < |visible| :: BlobHeader(visible[i]).Some?) && Announced(visible) < U64_LIMIT
    ensures error.None? ==> packBytes == Announced(visible) && payloadBytes == TotalSize(visible)
  {
    hide BlobHeader;
    packBytes, payloadBytes := |Pack.MAGIC|, 0;
    for i := 0 to |visible|
      invariant packBytes == Announced(visible[..i]) < U64_LIMIT
      invariant payloadBytes == TotalSize(visible[..i])
      invariant forall k | 0 <= k < i :: BlobHeader(visible[k]).Some?
    {
      var digest := visible[i];
      if BlobHeader(digest).None? {
        return Some(InvalidHeader), 0, 0;
      }
      TotalSizeSnoc(visible[..i], digest);
      assert visible[..i + 1] == visible[..i] + [digest];
      TotalSizePrefix(visible, i + 1);
      payloadBytes := payloadBytes + digest.size;
      packBytes := packBytes + Pack.HEADER_BYTES + digest.size;
      if packBytes >= U64_LIMIT {
        return Some(RequestTooLarge), 0, 0;
      }
    }
    assert visible[..|visible|] == visible;
    return None, packBytes, payloadBytes;
  }

  /** Stream one object: never more than the size storage reported, and an error unless exactly that arrives. */
  method StreamBlob(blob: Blob) returns (sent: Bytes, error: Option<StreamError>)
    ensures |sent| <= blob.size
    ensures error.None? <==> Delivered(blob.items).Some? && |Delivered(blob.items).value| == blob.size
    ensures error.None? ==> sent == Delivered(blob.items).value
    ensures error == Some(ReadFailed) ==> exists i :: 0 <= i < |blob.items| && blob.items[i].Broken?
    ensures error.Some? ==> !error.value.Missing?
  {
    hide Delivered;
    sent := [];
    var streamed := 0;
    DeliveredNone();
    DeliveredUnlessBroken(blob.items);
    for i := 0 to |blob.items|
      invariant Delivered(blob.items[..i]) == Some(sent) && streamed == |sent| <= blob.size
    {
      DeliveredNext(blob.items, i);
      match blob.items[i] {
        case Broken => return sent, Some(ReadFailed);
        case Chunk(bytes) =>
          streamed := streamed + |bytes|;
          if streamed > blob.size {
            if Delivered(blob.items).Some? {
              DeliveredEarlier(blob.items, i + 1);
            }
            return sent, Some(StreamTooLong);
          }
          sent := sent + bytes;
      }
    }
    assert blob.items[..|blob.items|] == blob.items;
    if streamed != blob.size {
      return sent, Some(StreamTooShort);
    }
    return sent, None;
  }

  lemma EncodeSnoc(frames: seq<Frame>, f: Frame)
    ensures EncodeFrames(frames + [f]) == EncodeFrames(frames) + FrameBytes(f)
  {
    if frames == [] {
      assert ([] + [f])[1..] == [];
    } else {
      assert (frames + [f])[1..] == frames[1..] + [f];
      EncodeSnoc(frames[1..], f);
    }
  }

  lemma {:induction false} AnsweredValid(request: seq<Digest>, visible: set<Digest>)
    requires forall i | 0 <= i < |request| :: ValidDigest(request[i])
    ensures var digests := Answered(request, visible);
            forall i | 0 <= i < |digests| :: ValidDigest(digests[i])
  {
    var digests := Answered(request, visible);
    forall i | 0 <= i < |digests| ensures ValidDigest(digests[i]) {
      assert digests[i] in request;
    }
  }

  /** Only objects that were asked for and are not stored are forgotten, few at a time, and none by a stream that ends well. */
  ghost predicate ForgetsOnlyMissing(
    store: map<Digest, Holding>, digests: seq<Digest>, broke: Option<StreamError>, forgot: set<Digest>)
  {
    && (forall d | d in forgot :: d in digests && d !in store)
    && |forgot| <= MAX_READS_AHEAD
    && (broke.None? ==> forgot == {})
    && (broke.Some? && broke.value.Missing? ==> broke.value.digest in forgot)
  }

  /** Send one frame: its header, and the object as storage streams it. */
  method SendFrame(store: map<Digest, Holding>, digest: Digest) returns (sent: Bytes, error: Option<StreamError>)
    requires ValidDigest(digest)
    ensures error.None? <==> Whole(store, digest)
    ensures error.None? ==>
              sent == FrameBytes(FrameOf(store, digest)) && |sent| == Pack.HEADER_BYTES + digest.size
    ensures |sent| <= Pack.HEADER_BYTES + digest.size
    ensures digest !in store <==> error == Some(Missing(digest))
    ensures error.Some? && error.value.Missing? ==> error.value.digest == digest
  {
    if digest !in store {
      return [], Some(Missing(digest));
    }
    if store[digest].Unreadable? {
      return [], Some(ReadFailed);
    }
    var blob := store[digest].blob;
    if blob.size != digest.size {
      return [], Some(WrongSize);
    }
    HeaderDecodes(Pack.Limits(0, 0, 0), digest);
    var header := BlobHeader(digest).value;
    sent, error := StreamBlob(blob);
    sent := header + sent;
  }

  lemma AnnouncedSnoc(digests: seq<Digest>, i: nat)
    requires i < |digests|
    ensures Announced(digests[..i + 1]) == Announced(digests[..i]) + Pack.HEADER_BYTES + digests[i].size
    ensures Announced(digests[..i + 1]) <= Announced(digests)
  {
    assert digests[..i + 1] == digests[..i] + [digests[i]];
    TotalSizeSnoc(digests[..i], digests[i]);
    TotalSizePrefix(digests, i + 1);
  }

  lemma FramesSnoc(store: map<Digest, Holding>, digests: seq<Digest>, i: nat)
    requires i < |digests|
    ensures FramesOf(store, digests[..i + 1]) == FramesOf(store, digests[..i]) + [FrameOf(store, digests[i])]
    ensures Encode(FramesOf(store, digests[..i + 1]))
         == Encode(FramesOf(store, digests[..i])) + FrameBytes(FrameOf(store, digests[i]))
  {
    assert FramesOf(store, digests[..i + 1]) == FramesOf(store, digests[..i]) + [FrameOf(store, digests[i])];
    EncodeSnoc(FramesOf(store, digests[..i]), FrameOf(store, digests[i]));
  }

  /** How many objects are asked for at a time, the one being sent included. */
  const MAX_READS_AHEAD := 16

  /** The objects asked for while frame `i` is sent that storage has answered it does not hold. */
  function MissingAhead(store: map<Digest, Holding>, digests: seq<Digest>, i: nat, answered: set<nat>): set<Digest> {
    set k | k in answered && i < k < Min(i + MAX_READS_AHEAD, |digests|) && digests[k] !in store :: digests[k]
  }

  lemma {:induction false} ElementsBound(s: seq<Digest>)
    ensures |set d | d in s| <= |s|
  {
    if s != [] {
      var init, last := s[..|s| - 1], s[|s| - 1];
      ElementsBound(init);
      assert (set d | d in s) == (set d | d in init) + {last};
    }
  }

  /** Together with frame `i` itself, at most as many as are asked for at a time. */
  lemma AheadBound(store: map<Digest, Holding>, digests: seq<Digest>, i: nat, answered: set<nat>)
    requires i < |digests|
    ensures |MissingAhead(store, digests, i, answered) + {digests[i]}| <= MAX_READS_AHEAD
  {
    var window := digests[i..Min(i + MAX_READS_AHEAD, |digests|)];
    ElementsBound(window);
    var found, all := MissingAhead(store, digests, i, answered) + {digests[i]}, set d | d in window;
    forall d | d in found ensures d in window {
      if d != digests[i] {
        var k :| i < k < Min(i + MAX_READS_AHEAD, |digests|) && digests[k] == d;
        assert window[k - i] == d;
      } else {
        assert window[0] == d;
      }
    }
    assert |all - found| == |all| - |found|;
  }

  /** What a stream that breaks at frame `i` forgets. */
  lemma AheadIsMissing(store: map<Digest, Holding>, digests: seq<Digest>, i: nat, answered: set<nat>, error: StreamError)
    requires i < |digests| && (error.Missing? ==> error.digest == digests[i] && digests[i] !in store)
    ensures var forgot := MissingAhead(store, digests, i, answered) + (if error.Missing? then {digests[i]} else {});
            ForgetsOnlyMissing(store, digests, Some(error), forgot)
  {
    AheadBound(store, digests, i, answered);
    var ahead := MissingAhead(store, digests, i, answered);
    assert |ahead + {digests[i]}| == |ahead + {digests[i]} - ahead| + |ahead|;
  }

  lemma NothingSent(store: map<Digest, Holding>)
    ensures Encode(FramesOf(store, [])) == Pack.MAGIC && Announced([]) == |Pack.MAGIC|
  {
    assert FramesOf(store, []) == [];
    assert Pack.MAGIC + [] == Pack.MAGIC;
  }

  /**
   Send the frames of `digests` until one cannot be sent whole. Objects are asked
   for ahead, and `answered` says which of them storage has answered by the time
   a frame breaks; the rows of those it does not hold are forgotten.
   */
  method StreamPack(store: map<Digest, Holding>, digests: seq<Digest>, answered: nat -> set<nat>)
    returns (body: Bytes, broke: Option<StreamError>, forgot: set<Digest>)
    requires forall i | 0 <= i < |digests| :: ValidDigest(digests[i])
    ensures broke.None? <==> forall i | 0 <= i < |digests| :: Whole(store, digests[i])
    ensures broke.None? ==> body == Encode(FramesOf(store, digests)) && |body| == Announced(digests)
    ensures |body| <= Announced(digests)
    ensures broke.Some? && broke.value.Missing? ==> broke.value.digest in digests && broke.value.digest !in store
    ensures ForgetsOnlyMissing(store, digests, broke, forgot)
  {
    hide Whole;
    hide FrameBytes;
    hide ValidDigest;
    hide MissingAhead;
    hide Announced;
    hide Encode;
    NothingSent(store);
    body := Pack.MAGIC;
    assert digests[..0] == [];
    for i := 0 to |digests|
      invariant forall k | 0 <= k < i :: Whole(store, digests[k])
      invariant body == Encode(FramesOf(store, digests[..i])) && |body| == Announced(digests[..i])
    {
      AnnouncedSnoc(digests, i);
      FramesSnoc(store, digests, i);
      var sent, error := SendFrame(store, digests[i]);
      body := body + sent;
      if error.Some? {
        forgot := MissingAhead(store, digests, i, answered(i)) + (if error.value.Missing? then {digests[i]} else {});
        AheadIsMissing(store, digests, i, answered(i), error.value);
        return body, error, forgot;
      }
    }
    assert digests[..|digests|] == digests;
    return body, None, {};
  }

  /**
   Serve a pack. A served body that did not break is the encoding of exactly the
   requested visible digests, in first-occurrence order and each once, with
   their stored bytes; the announced length, count and payload are its own.
   */
  method ServePack(
    maxBlobBytes: U64, request: seq<Digest>, visible: set<Digest>, store: map<Digest, Holding>, answered: nat -> set<nat>)
    returns (served: Served)
    ensures served.Streaming? <==> Acceptable(maxBlobBytes, request, visible)
    ensures served.Streaming? ==>
              var r, digests := served.response, Answered(request, visible);
              && r.contentLength == Announced(digests) && r.blobs == |digests| && r.payloadBytes == TotalSize(digests)
              && |r.body| <= r.contentLength
              && (r.broke.None? <==> forall i | 0 <= i < |digests| :: Whole(store, digests[i]))
              && (r.broke.None? ==> r.body == Encode(FramesOf(store, digests)) && |r.body| == r.contentLength)
              && (r.broke.Some? && r.broke.value.Missing? ==>
                    r.broke.value.digest in digests && r.broke.value.digest !in store)
              && ForgetsOnlyMissing(store, digests, r.broke, r.forgot)
              && Distinct(digests)
  {
    if |request| > PackUpload.MAX_BATCH_ITEMS {
      return Refused(TooManyDigests);
    }
    var error, requested := Deduplicate(maxBlobBytes, request);
    if error.Some? {
      return Refused(error.value);
    }
    AnsweredValid(request, visible);
    var digests := Filter(requested, visible);
    assert digests == Answered(request, visible);
    forall i | 0 <= i < |digests| ensures BlobHeader(digests[i]).Some? {
      HeaderDecodes(Pack.Limits(0, 0, 0), digests[i]);
    }
    var tooLarge, packBytes, payloadBytes := Announce(digests);
    if tooLarge.Some? {
      return Refused(tooLarge.value);
    }
    var body, broke, forgot := StreamPack(store, digests, answered);
    return Streaming(Response(packBytes, |digests|, payloadBytes, body, broke, forgot));
  }

  lemma {:induction false} FramesTotal(store: map<Digest, Holding>, digests: seq<Digest>)
    requires forall i | 0 <= i < |digests| :: Whole(store, digests[i])
    ensures TotalBytes(FramesOf(store, digests)) == TotalSize(digests)
  {
    if digests != [] {
      var init, last := digests[..|digests| - 1], digests[|digests| - 1];
      FramesTotal(store, init);
      assert FramesOf(store, digests) == FramesOf(store, init) + [FrameOf(store, last)];
      TotalBytesSnoc(FramesOf(store, init), FrameOf(store, last));
    }
  }

  lemma TotalBytesSnoc(frames: seq<Frame>, f: Frame)
    ensures TotalBytes(frames + [f]) == TotalBytes(frames) + |f.payload|
  {
    if frames == [] {
      assert ([] + [f])[1..] == [];
    } else {
      assert (frames + [f])[1..] == frames[1..] + [f];
      TotalBytesSnoc(frames[1..], f);
    }
  }

  lemma {:induction false} SizeInTotal(digests: seq<Digest>, i: nat)
    requires i < |digests|
    ensures digests[i].size <= TotalSize(digests)
  {
    TotalSizePrefix(digests, i + 1);
    assert digests[..i + 1][..i] == digests[..i];
  }

  /** A served pack fits what the transport lets an upload carry. */
  lemma ServedPackFitsTransport(maxBlobBytes: U64, request: seq<Digest>, visible: set<Digest>)
    requires Acceptable(maxBlobBytes, request, visible)
    ensures Announced(Answered(request, visible)) <= PackLimit(maxBlobBytes)
  {
    FilterShrinks(FirstOccurrences(request), visible);
  }

  /**
   A pack served from verified storage is accepted verbatim by the upload
   handler under the same limits and headers: however its body is cut into
   chunks and in whatever order its stores finish, it is never declined.
   */
  lemma ServedPackIsAccepted(
    c: PackUpload.Config, request: seq<Digest>, visible: set<Digest>, store: map<Digest, Holding>,
    chunks: seq<Bytes>, objects: map<Digest, Bytes>, rows: set<Digest>, moves: seq<PackUpload.Move>)
    requires Acceptable(c.maxBlobBytes, request, visible)
    requires forall d | d in Answered(request, visible) ::
               Whole(store, d) && Matches(c.hasher, d, Content(store, d))
    requires Pack.Flatten(chunks) == Encode(FramesOf(store, Answered(request, visible)))
    requires c.declaredBlobs == |Answered(request, visible)| && c.declaredBytes == TotalSize(Answered(request, visible))
    requires PackUpload.VerifiedStore(c, objects)
    requires forall i | 0 <= i < |moves| :: PackAcceptance.Cooperates(moves[i])
    ensures PackAcceptance.Smooth(
              PackUpload.Run(c, PackUpload.AtStart(c, PackUpload.Chunks(chunks), objects, rows), moves))
  {
    hide Encode;
    hide Pack.Flatten;
    hide TotalSize;
    hide TotalBytes;
    hide ValidDigest;
    hide PackUpload.Run;
    hide PackAcceptance.Smooth;
    hide Announced;
    var digests := Answered(request, visible);
    var frames := FramesOf(store, digests);
    AnsweredValid(request, visible);
    FilterShrinks(FirstOccurrences(request), visible);
    FramesTotal(store, digests);
    forall i | 0 <= i < |frames|
      ensures ValidFrame(c.ReaderLimits(), frames[i]) && PackUpload.Verified(c, frames[i])
    {
      SizeInTotal(digests, i);
      assert digests[i] in digests;
    }
    PackAcceptance.GoodPackIsAccepted(c, chunks, frames, objects, rows, moves);
  }
}
