/**
 Accepting a pack: the handler reads frames while up to `concurrency` of them
 are stored in the background, finishing in any order and failing at any point.
 */
module PackUpload {
  import opened Encoding
  import opened Digests
  import opened Pack
  import opened Streams
  import opened PackGrammar
  import opened PackFrames

  const MAX_BATCH_ITEMS := 10_000

  datatype UploadError =
    | TooManyDeclared | TooLargeDeclared | BrokenBody | Internal | NotMatching
    | SpoolRefused | StoreFailed | Malformed(error: PackError) | HeadersDisagree

  /** The service's limits and what the request's headers declare. */
  datatype Config = Config(
    hasher: Hasher, maxBlobBytes: U64, concurrency: nat, declaredBlobs: U64, declaredBytes: U64)
  {
    function ReaderLimits(): Limits {
      Limits(maxBlobBytes, declaredBlobs, declaredBytes)
    }
  }

  datatype Receipt = Receipt(created: nat, existing: nat)

  datatype Outcome = Stored(receipt: Receipt) | Declined(error: UploadError)

  /** A background store: its put, its registration, and its end; a broken one remembers what its put did. */
  datatype Task =
    | Spawned(frame: Frame)
    | Put(frame: Frame, outcome: PutOutcome)
    | Done(frame: Frame, outcome: PutOutcome)
    | Lost(frame: Frame, put: Option<PutOutcome>)

  datatype Mode =
    | Reading
    | Blocked(frame: Frame)
    | Draining
    | Failing(error: UploadError)
    | Answered(outcome: Outcome)

  datatype State = State(
    mode: Mode,
    input: seq<Item>,
    core: Core,
    events: seq<PackEvent>,
    frame: Option<Frame>,
    tasks: map<nat, Task>,
    nextId: nat,
    receipt: Receipt,
    objects: map<Digest, Bytes>,
    rows: set<Digest>,
    // History, for stating what happened.
    taken: seq<Bytes>,
    played: seq<PackEvent>,
    sent: seq<Frame>)

  function AtStart(c: Config, body: seq<Item>, objects: map<Digest, Bytes>, rows: set<Digest>): State {
    State(if c.declaredBlobs > MAX_BATCH_ITEMS then Answered(Declined(TooManyDeclared))
          else if c.declaredBytes > c.maxBlobBytes then Answered(Declined(TooLargeDeclared))
          else Reading,
          body, FRESH, [], None, map[], 0, Receipt(0, 0), objects, rows, [], [], [])
  }

  /** Who moves next. `ok` says whether the store or the disk does what it is asked. */
  datatype Move =
    | TakeChunk
    | TakeEvent(ok: bool)
    | RunTask(id: nat, ok: bool)
    | Collect(id: nat)
    | EndBody
    | Answer
    | Elsewhere(digest: Digest, bytes: Bytes)

  predicate Finished(t: Task) {
    t.Done? || t.Lost?
  }

  predicate Enabled(c: Config, s: State, m: Move) {
    match m
    case TakeChunk => s.mode.Reading? && s.events == [] && s.input != []
    case TakeEvent(_) => s.mode.Reading? && s.events != []
    case RunTask(id, _) => id in s.tasks && !Finished(s.tasks[id])
    case Collect(id) =>
      (s.mode.Blocked? || s.mode.Draining? || s.mode.Failing?) && id in s.tasks && Finished(s.tasks[id])
    case EndBody => s.mode.Reading? && s.events == [] && s.input == []
    case Answer => (s.mode.Draining? || s.mode.Failing?) && s.tasks == map[]
    case Elsewhere(d, bytes) => Matches(c.hasher, d, bytes)
  }

  function Spawn(s: State, f: Frame): State {
    s.(mode := Reading, tasks := s.tasks[s.nextId := Spawned(f)], nextId := s.nextId + 1, sent := s.sent + [f])
  }

  function ReadChunk(c: Config, s: State): (t: State)
    requires s.input != [] && ValidCore(c.ReaderLimits(), s.core)
    ensures ValidCore(c.ReaderLimits(), t.core)
  {
    match s.input[0]
    case Broken => s.(mode := Failing(BrokenBody), input := s.input[1..])
    case Chunk(bytes) =>
      match Consume(c.ReaderLimits(), s.core, bytes)
      case Refused(error) => s.(mode := Failing(Malformed(error)), input := s.input[1..])
      case Accepted(events, core) =>
        s.(input := s.input[1..], core := core, events := events, taken := s.taken + [bytes])
  }

  /** A frame whose payload is complete is verified, and stored as soon as there is a slot. */
  function CloseFrame(c: Config, s: State, f: Frame): (t: State)
    ensures t.core == s.core
  {
    if !Matches(c.hasher, f.digest, f.payload) then s.(mode := Failing(NotMatching), frame := None)
    else if |s.tasks| >= c.concurrency && s.tasks != map[] then s.(mode := Blocked(f), frame := None)
    else Spawn(s.(frame := None), f)
  }

  function HandleEvent(c: Config, s: State, ok: bool): (t: State)
    requires s.events != []
    ensures t.core == s.core
  {
    var e, rest := s.events[0], s.(events := s.events[1..], played := s.played + [s.events[0]]);
    match e
    case Started(d) =>
      if !ok then rest.(mode := Failing(SpoolRefused)) else rest.(frame := Some(Frame(d, [])))
    case Payload(bytes) =>
      if s.frame.None? then rest.(mode := Failing(Internal))
      else if !ok then rest.(mode := Failing(SpoolRefused))
      else rest.(frame := Some(s.frame.value.(payload := s.frame.value.payload + bytes)))
    case Complete =>
      if s.frame.None? then rest.(mode := Failing(Internal)) else CloseFrame(c, rest, s.frame.value)
  }

  function PutIfAbsent(objects: map<Digest, Bytes>, f: Frame): (map<Digest, Bytes>, PutOutcome) {
    if f.digest in objects then (objects, AlreadyExists) else (objects[f.digest := f.payload], Created)
  }

  function Advanced(s: State, id: nat, ok: bool): (t: State)
    requires id in s.tasks
    ensures t.core == s.core
  {
    match s.tasks[id]
    case Spawned(f) =>
      if !ok then s.(tasks := s.tasks[id := Lost(f, None)])
      else
        var (objects, outcome) := PutIfAbsent(s.objects, f);
        s.(objects := objects, tasks := s.tasks[id := Task.Put(f, outcome)])
    case Put(f, outcome) =>
      if !ok then s.(tasks := s.tasks[id := Lost(f, Some(outcome))])
      else s.(rows := s.rows + {f.digest}, tasks := s.tasks[id := Done(f, outcome)])
    case _ => s
  }

  function Count(r: Receipt, outcome: PutOutcome): Receipt {
    if outcome.Created? then r.(created := r.created + 1) else r.(existing := r.existing + 1)
  }

  function Collected(s: State, id: nat): (t: State)
    requires id in s.tasks && Finished(s.tasks[id])
    ensures t.core == s.core
  {
    var rest := s.(tasks := s.tasks - {id});
    if s.mode.Failing? then rest
    else
      match s.tasks[id]
      case Lost(_, _) => rest.(mode := Failing(StoreFailed))
      case Done(_, outcome) =>
        var counted := rest.(receipt := Count(s.receipt, outcome));
        if s.mode.Blocked? then Spawn(counted, s.mode.frame) else counted
  }

  function Conclude(c: Config, s: State): (t: State)
    ensures t.core == s.core
  {
    match s.mode
    case Failing(error) => s.(mode := Answered(Declined(error)))
    case _ =>
      if Finish(s.core).Err? then s.(mode := Answered(Declined(Malformed(Truncated))))
      else if s.core.blobs != c.declaredBlobs || s.core.payloadBytes != c.declaredBytes
      then s.(mode := Answered(Declined(HeadersDisagree)))
      else s.(mode := Answered(Stored(s.receipt)))
  }

  function Step(c: Config, s: State, m: Move): (t: State)
    requires ValidCore(c.ReaderLimits(), s.core)
    ensures ValidCore(c.ReaderLimits(), t.core)
  {
    if !Enabled(c, s, m) then s
    else
      match m
      case TakeChunk => ReadChunk(c, s)
      case TakeEvent(ok) => HandleEvent(c, s, ok)
      case RunTask(id, ok) => Advanced(s, id, ok)
      case Collect(id) => Collected(s, id)
      case EndBody => s.(mode := Draining)
      case Answer => Conclude(c, s)
      case Elsewhere(d, bytes) => s.(objects := PutIfAbsent(s.objects, Frame(d, bytes)).0)
  }

  function Run(c: Config, start: State, moves: seq<Move>): (s: State)
    requires ValidCore(c.ReaderLimits(), start.core)
    ensures ValidCore(c.ReaderLimits(), s.core)
  {
    if moves == [] then start else Step(c, Run(c, start, moves[..|moves| - 1]), moves[|moves| - 1])
  }

  // Invariants.

  /** The frame a blocked handler holds counts as closed. */
  function Closed(s: State): seq<Frame> {
    s.sent + (if s.mode.Blocked? then [s.mode.frame] else [])
  }

  /** The handler has done what the events so far said. */
  ghost predicate Following(c: Config, s: State) {
    && ReadChunks(c.ReaderLimits(), s.taken) == Accepted(s.played + s.events, s.core)
    && (s.mode.Reading? || s.mode.Blocked? || s.mode.Draining? ==>
          Play(s.played) == Some(Deck(Closed(s), s.frame)))
    && (s.mode.Draining? ==> s.events == [])
  }

  /** At most `concurrency` stores are uncollected, and none once the handler has answered. */
  ghost predicate Bounded(c: Config, s: State) {
    && |s.tasks| <= (if c.concurrency == 0 then 1 else c.concurrency)
    && (s.mode.Blocked? ==> s.tasks != map[])
    && (s.mode.Answered? ==> s.tasks == map[])
    && (forall id | id in s.tasks :: id < s.nextId)
  }

  ghost predicate Verified(c: Config, f: Frame) {
    Matches(c.hasher, f.digest, f.payload)
  }

  /** Only bytes that match their declared digest and size are ever stored. */
  ghost predicate AllVerified(c: Config, s: State) {
    && (forall d | d in s.objects :: Matches(c.hasher, d, s.objects[d]))
    && (forall i | 0 <= i < |s.sent| :: Verified(c, s.sent[i]))
    && (s.mode.Blocked? ==> Verified(c, s.mode.frame))
    && (forall id | id in s.tasks :: Verified(c, s.tasks[id].frame))
  }

  predicate Going(s: State) {
    s.mode.Reading? || s.mode.Blocked? || s.mode.Draining?
  }

  predicate IsStored(s: State, d: Digest) {
    d in s.objects && d in s.rows
  }

  /** Every frame sent is stored and registered, or a store that has not succeeded is still uncollected. */
  ghost predicate Accounted(s: State) {
    && (forall id | id in s.tasks && s.tasks[id].Put? :: s.tasks[id].frame.digest in s.objects)
    && (forall id | id in s.tasks && s.tasks[id].Done? :: IsStored(s, s.tasks[id].frame.digest))
    && (Going(s) ==> s.receipt.created + s.receipt.existing + |s.tasks| == |s.sent|)
    && (Going(s) ==> forall i | 0 <= i < |s.sent| ::
          IsStored(s, s.sent[i].digest) || Underway(s, s.sent[i].digest))
  }

  ghost predicate Underway(s: State, d: Digest) {
    exists id :: id in s.tasks && s.tasks[id].frame.digest == d && !s.tasks[id].Done?
  }

  /** Whether a store's put wrote the object. */
  predicate Wrote(t: Task) {
    match t
    case Spawned(_) => false
    case Put(_, outcome) => outcome.Created?
    case Done(_, outcome) => outcome.Created?
    case Lost(_, put) => put == Some(Created)
  }

  function Writers(tasks: map<nat, Task>): set<nat> {
    set id | id in tasks && Wrote(tasks[id])
  }

  function DigestsOf(frames: seq<Frame>): set<Digest> {
    if frames == [] then {} else DigestsOf(frames[..|frames| - 1]) + {frames[|frames| - 1].digest}
  }

  /** Everything new since `before` was sent, and so was everything a store is working on. */
  ghost predicate Covered(before: set<Digest>, keys: set<Digest>, tasks: map<nat, Task>, sent: seq<Frame>) {
    && before <= keys <= before + DigestsOf(sent)
    && forall id | id in tasks :: tasks[id].frame.digest in DigestsOf(sent)
  }

  /** Each object new since `before` was created by exactly one store, counted or still to be counted. */
  ghost predicate Balanced(before: set<Digest>, keys: set<Digest>, tasks: map<nat, Task>, created: nat) {
    created + |Writers(tasks)| == |keys| - |before|
  }

  /** With no other writer the receipt balances with the store. */
  ghost predicate CreationsAdd(before: set<Digest>, s: State) {
    && Covered(before, s.objects.Keys, s.tasks, s.sent)
    && (Going(s) ==> Balanced(before, s.objects.Keys, s.tasks, s.receipt.created))
  }

  ghost predicate Invariant(c: Config, s: State) {
    && ValidCore(c.ReaderLimits(), s.core)
    && Following(c, s)
    && Bounded(c, s)
    && AllVerified(c, s)
    && Accounted(s)
  }

  // Each part is kept by every move.

  lemma ChunkFollows(c: Config, s: State)
    requires ValidCore(c.ReaderLimits(), s.core) && Following(c, s)
    requires s.mode.Reading? && s.events == [] && s.input != []
    ensures Following(c, ReadChunk(c, s))
  {
    assert s.played + [] == s.played;
    if s.input[0].Chunk? {
      ReadMore(c.ReaderLimits(), s.taken, s.input[0].bytes);
    }
  }

  /** The next event fits what was played, because the reader's events always do. */
  lemma NextPlays(c: Config, s: State)
    requires Following(c, s) && s.events != []
    ensures ReadChunks(c.ReaderLimits(), s.taken) == Accepted(s.played + [s.events[0]] + s.events[1..], s.core)
    ensures Play(s.played).Some? && Play(s.played + [s.events[0]]).Some?
    ensures Play(s.played + [s.events[0]]) == PlayOne(Play(s.played).value, s.events[0])
  {
    assert s.played + [s.events[0]] + s.events[1..] == s.played + s.events;
    ReadingPlays(c.ReaderLimits(), s.taken);
    PlayPrefix(s.played + [s.events[0]], s.events[1..]);
    PlayPrefix(s.played, [s.events[0]]);
    PlaySnoc(s.played, s.events[0]);
  }

  /** A frame starts where none is open; payload and an end belong to an open one. */
  lemma EventFits(c: Config, s: State)
    requires Following(c, s) && s.mode.Reading? && s.events != []
    ensures s.events[0].Started? <==> s.frame.None?
  {
    NextPlays(c, s);
  }

  lemma EventFollows(c: Config, s: State, ok: bool)
    requires Following(c, s) && s.mode.Reading? && s.events != []
    ensures Following(c, HandleEvent(c, s, ok))
    ensures HandleEvent(c, s, ok).mode != Failing(Internal)
    ensures s.events[0].Complete? ==> s.frame.Some?
  {
    hide ReadChunks;
    hide Play;
    hide Matches;
    hide CloseFrame;
    NextPlays(c, s);
    assert s.sent + [] == s.sent;
    if s.events[0].Complete? {
      var rest := s.(events := s.events[1..], played := s.played + [s.events[0]]);
      CloseFollows(c, rest, s.frame.value);
    }
  }

  /** A closed frame is sent, or held while the handler waits for a slot. */
  lemma CloseFollows(c: Config, s: State, f: Frame)
    requires s.mode.Reading?
    ensures var t := CloseFrame(c, s, f);
            && t.taken == s.taken && t.played == s.played && t.events == s.events && t.core == s.core
            && (Going(t) ==> Closed(t) == s.sent + [f] && t.frame == None && !t.mode.Draining?)
            && t.mode != Failing(Internal)
  {
  }

  lemma StepFollows(c: Config, s: State, m: Move)
    requires ValidCore(c.ReaderLimits(), s.core) && Following(c, s)
    ensures Following(c, Step(c, s, m)) && ValidCore(c.ReaderLimits(), Step(c, s, m).core)
  {
    if Enabled(c, s, m) {
      match m {
        case TakeChunk => ChunkFollows(c, s);
        case TakeEvent(ok) => EventFollows(c, s, ok);
        case _ => OtherFollows(c, s, m);
      }
    }
  }

  lemma OtherFollows(c: Config, s: State, m: Move)
    requires ValidCore(c.ReaderLimits(), s.core) && Following(c, s)
    requires Enabled(c, s, m) && !m.TakeChunk? && !m.TakeEvent?
    ensures Following(c, Step(c, s, m)) && Step(c, s, m).core == s.core
  {
    hide ReadChunks;
    hide Play;
    hide Consume;
    hide Matches;
    if s.mode.Blocked? {
      assert s.sent + [s.mode.frame] + [] == s.sent + [s.mode.frame];
    }
  }

  lemma StepBounded(c: Config, s: State, m: Move)
    requires ValidCore(c.ReaderLimits(), s.core) && Bounded(c, s)
    ensures Bounded(c, Step(c, s, m))
  {
    hide Bounded;
    if Enabled(c, s, m) {
      match m {
        case TakeChunk => ChunkBounded(c, s);
        case TakeEvent(ok) => EventBounded(c, s, ok);
        case RunTask(id, ok) => TaskBounded(c, s, id, ok);
        case Collect(id) => CollectBounded(c, s, id);
        case _ => OtherBounded(c, s, m);
      }
    }
  }

  lemma CollectBounded(c: Config, s: State, id: nat)
    requires Enabled(c, s, Collect(id)) && Bounded(c, s)
    ensures Bounded(c, Collected(s, id))
  {
  }

  lemma OtherBounded(c: Config, s: State, m: Move)
    requires ValidCore(c.ReaderLimits(), s.core) && Bounded(c, s) && Enabled(c, s, m)
    requires m.EndBody? || m.Answer? || m.Elsewhere?
    ensures Bounded(c, Step(c, s, m))
  {
  }

  lemma ChunkBounded(c: Config, s: State)
    requires ValidCore(c.ReaderLimits(), s.core) && Bounded(c, s) && Enabled(c, s, TakeChunk)
    ensures Bounded(c, ReadChunk(c, s))
  {
  }

  lemma TaskBounded(c: Config, s: State, id: nat, ok: bool)
    requires Enabled(c, s, RunTask(id, ok)) && Bounded(c, s)
    ensures Bounded(c, Advanced(s, id, ok))
  {
  }

  lemma EventBounded(c: Config, s: State, ok: bool)
    requires s.mode.Reading? && s.events != [] && Bounded(c, s)
    ensures Bounded(c, HandleEvent(c, s, ok))
  {
    hide Matches;
  }

  lemma StepVerified(c: Config, s: State, m: Move)
    requires ValidCore(c.ReaderLimits(), s.core) && AllVerified(c, s)
    ensures AllVerified(c, Step(c, s, m))
  {
    if Enabled(c, s, m) {
      match m {
        case TakeChunk => hide Consume;
        case TakeEvent(ok) => EventVerified(c, s, ok);
        case RunTask(id, ok) => TaskVerified(c, s, id, ok);
        case _ => hide Matches;
      }
    }
  }

  lemma EventVerified(c: Config, s: State, ok: bool)
    requires s.events != [] && s.mode.Reading? && AllVerified(c, s)
    ensures AllVerified(c, HandleEvent(c, s, ok))
  {
    hide Matches;
  }

  lemma TaskVerified(c: Config, s: State, id: nat, ok: bool)
    requires id in s.tasks && AllVerified(c, s)
    ensures AllVerified(c, Advanced(s, id, ok))
  {
  }

  lemma RemoveOne<K, V>(m: map<K, V>, k: K)
    requires k in m
    ensures |m - {k}| == |m| - 1
  {
  }

  lemma StepAccounted(c: Config, s: State, m: Move)
    requires ValidCore(c.ReaderLimits(), s.core) && Accounted(s) && Bounded(c, s)
    ensures Accounted(Step(c, s, m))
  {
    if Enabled(c, s, m) {
      match m {
        case TakeEvent(ok) => EventAccounted(c, s, ok);
        case RunTask(id, ok) => TaskAccounted(c, s, id, ok);
        case Collect(id) => CollectAccounted(c, s, id);
        case _ => OtherAccounted(c, s, m);
      }
    }
  }

  /** Stores that stay uncollected go on accounting for their digests. */
  lemma UnderwayKept(s: State, t: State)
    requires forall id | id in s.tasks && !s.tasks[id].Done? ::
               id in t.tasks && !t.tasks[id].Done? && t.tasks[id].frame == s.tasks[id].frame
    ensures forall d | Underway(s, d) :: Underway(t, d)
  {
  }

  /** Nothing the accounts depend on is lost. */
  predicate SameBooks(s: State, t: State) {
    && t.tasks == s.tasks && t.sent == s.sent && t.receipt == s.receipt && t.rows == s.rows
    && s.objects.Keys <= t.objects.Keys
    && (Going(t) ==> Going(s))
  }

  lemma BooksKept(s: State, t: State)
    requires SameBooks(s, t) && Accounted(s)
    ensures Accounted(t)
  {
    UnderwayKept(s, t);
    hide Underway;
  }

  lemma OtherAccounted(c: Config, s: State, m: Move)
    requires ValidCore(c.ReaderLimits(), s.core) && Accounted(s) && Enabled(c, s, m)
    requires m.TakeChunk? || m.EndBody? || m.Answer? || m.Elsewhere?
    ensures Accounted(Step(c, s, m))
  {
    hide Consume;
    hide Matches;
    hide Accounted;
    BooksKept(s, Step(c, s, m));
  }

  /** A new store keeps the accounts. */
  lemma SpawnAccounted(s: State, f: Frame)
    requires (forall id | id in s.tasks && s.tasks[id].Put? :: s.tasks[id].frame.digest in s.objects)
    requires (forall id | id in s.tasks && s.tasks[id].Done? :: IsStored(s, s.tasks[id].frame.digest))
    requires s.receipt.created + s.receipt.existing + |s.tasks| == |s.sent|
    requires forall i | 0 <= i < |s.sent| :: IsStored(s, s.sent[i].digest) || Underway(s, s.sent[i].digest)
    requires s.nextId !in s.tasks
    ensures Accounted(Spawn(s, f))
  {
    var t := Spawn(s, f);
    assert t.tasks[s.nextId].frame.digest == f.digest && !t.tasks[s.nextId].Done?;
    UnderwayKept(s, t);
  }

  /** An event that closes no frame, and one that closes a frame the handler does not send yet. */
  lemma EventBooks(c: Config, s: State, ok: bool)
    requires s.events != [] && s.mode.Reading?
    ensures var t := HandleEvent(c, s, ok);
            || SameBooks(s, t)
            || (s.frame.Some? &&
                  var rest := s.(events := s.events[1..], played := s.played + [s.events[0]], frame := None);
                  t == Spawn(rest, s.frame.value))
  {
    hide Matches;
  }

  lemma EventAccounted(c: Config, s: State, ok: bool)
    requires s.events != [] && s.mode.Reading? && Accounted(s) && Bounded(c, s)
    ensures Accounted(HandleEvent(c, s, ok))
  {
    hide HandleEvent;
    EventBooks(c, s, ok);
    if SameBooks(s, HandleEvent(c, s, ok)) {
      BooksKept(s, HandleEvent(c, s, ok));
    } else {
      hide Spawn;
      var rest := s.(events := s.events[1..], played := s.played + [s.events[0]], frame := None);
      BooksKept(s, rest);
      SpawnAccounted(rest, s.frame.value);
    }
  }

  lemma TaskAccounted(c: Config, s: State, id: nat, ok: bool)
    requires id in s.tasks && !Finished(s.tasks[id]) && Accounted(s)
    ensures Accounted(Advanced(s, id, ok))
  {
    var t := Advanced(s, id, ok);
    assert t.tasks.Keys == s.tasks.Keys;
    assert |t.tasks| == |s.tasks|;
    forall d | Underway(s, d) ensures IsStored(t, d) || Underway(t, d) {
      var i :| i in s.tasks && s.tasks[i].frame.digest == d && !s.tasks[i].Done?;
      assert i in t.tasks && t.tasks[i].frame == s.tasks[i].frame;
    }
  }

  lemma CollectAccounted(c: Config, s: State, id: nat)
    requires Enabled(c, s, Collect(id)) && Accounted(s) && Bounded(c, s)
    ensures Accounted(Collected(s, id))
  {
    RemoveOne(s.tasks, id);
    var rest := s.(tasks := s.tasks - {id});
    if s.tasks[id].Done? && Going(s) {
      UnderwayKept(s, rest);
      var counted := rest.(receipt := Count(s.receipt, s.tasks[id].outcome));
      UnderwayKept(rest, counted);
      if s.mode.Blocked? {
        SpawnAccounted(counted, s.mode.frame);
      }
    }
  }

  // Counting creations.

  lemma DigestsSnoc(frames: seq<Frame>, f: Frame)
    ensures DigestsOf(frames + [f]) == DigestsOf(frames) + {f.digest}
  {
  }

  lemma {:induction false} DigestsMembers(frames: seq<Frame>)
    ensures forall d :: d in DigestsOf(frames) <==> exists i :: 0 <= i < |frames| && frames[i].digest == d
  {
    if frames != [] {
      var init, last := frames[..|frames| - 1], frames[|frames| - 1];
      DigestsMembers(init);
      forall i | 0 <= i < |frames| ensures frames[i].digest in DigestsOf(frames) {
        if i < |init| {
          assert init[i].digest in DigestsOf(init);
        }
      }
    }
  }

  lemma SpawnCovers(before: set<Digest>, keys: set<Digest>, tasks: map<nat, Task>, sent: seq<Frame>, id: nat, f: Frame)
    requires Covered(before, keys, tasks, sent)
    ensures Covered(before, keys, tasks[id := Spawned(f)], sent + [f])
  {
    hide DigestsOf;
    DigestsSnoc(sent, f);
  }

  lemma SpawnBalances(before: set<Digest>, keys: set<Digest>, tasks: map<nat, Task>, created: nat, id: nat, f: Frame)
    requires Balanced(before, keys, tasks, created) && id !in tasks
    ensures Balanced(before, keys, tasks[id := Spawned(f)], created)
  {
    assert Writers(tasks[id := Spawned(f)]) == Writers(tasks);
  }

  lemma SpawnCreations(before: set<Digest>, s: State, f: Frame)
    requires CreationsAdd(before, s) && s.nextId !in s.tasks && Going(s)
    ensures CreationsAdd(before, Spawn(s, f))
  {
    hide Covered;
    hide Balanced;
    hide DigestsOf;
    SpawnCovers(before, s.objects.Keys, s.tasks, s.sent, s.nextId, f);
    SpawnBalances(before, s.objects.Keys, s.tasks, s.receipt.created, s.nextId, f);
  }

  /** A put that writes adds one object and one writer. */
  lemma WriteBalances(
    before: set<Digest>, keys: set<Digest>, tasks: map<nat, Task>, sent: seq<Frame>, created: nat, id: nat, t: Task)
    requires Covered(before, keys, tasks, sent)
    requires id in tasks && !Wrote(tasks[id]) && Wrote(t) && t.frame == tasks[id].frame && t.frame.digest !in keys
    ensures Covered(before, keys + {t.frame.digest}, tasks[id := t], sent)
    ensures Balanced(before, keys, tasks, created) ==>
              Balanced(before, keys + {t.frame.digest}, tasks[id := t], created)
  {
    hide DigestsOf;
    assert Writers(tasks[id := t]) == Writers(tasks) + {id};
  }

  /** A step of a store that writes nothing changes nothing here. */
  lemma IdleBalances(
    before: set<Digest>, keys: set<Digest>, tasks: map<nat, Task>, sent: seq<Frame>, created: nat, id: nat, t: Task)
    requires Covered(before, keys, tasks, sent)
    requires id in tasks && Wrote(tasks[id]) == Wrote(t) && t.frame == tasks[id].frame
    ensures Covered(before, keys, tasks[id := t], sent)
    ensures Balanced(before, keys, tasks, created) ==> Balanced(before, keys, tasks[id := t], created)
  {
    hide DigestsOf;
    assert Writers(tasks[id := t]) == Writers(tasks);
  }

  lemma PutCreations(before: set<Digest>, s: State, id: nat, ok: bool)
    requires CreationsAdd(before, s) && id in s.tasks && !Finished(s.tasks[id])
    ensures CreationsAdd(before, Advanced(s, id, ok))
  {
    var t := Advanced(s, id, ok);
    if ok && s.tasks[id].Spawned? && s.tasks[id].frame.digest !in s.objects.Keys {
      WriteBalances(before, s.objects.Keys, s.tasks, s.sent, s.receipt.created, id, t.tasks[id]);
      assert t.objects.Keys == s.objects.Keys + {s.tasks[id].frame.digest};
    } else {
      IdleBalances(before, s.objects.Keys, s.tasks, s.sent, s.receipt.created, id, t.tasks[id]);
    }
    hide Covered;
    hide Balanced;
  }

  /** Collecting a store moves its creation from the writers to the receipt. */
  lemma CollectBalances(before: set<Digest>, s: State, id: nat)
    requires CreationsAdd(before, s) && id in s.tasks
    ensures Covered(before, s.objects.Keys, s.tasks - {id}, s.sent)
    ensures s.tasks[id].Done? && Going(s) ==>
              Balanced(before, s.objects.Keys, s.tasks - {id}, Count(s.receipt, s.tasks[id].outcome).created)
  {
    hide DigestsOf;
    assert Writers(s.tasks - {id}) == Writers(s.tasks) - {id};
  }

  lemma CollectCreations(before: set<Digest>, s: State, id: nat)
    requires CreationsAdd(before, s) && id in s.tasks && Finished(s.tasks[id])
    requires s.nextId !in s.tasks && !s.mode.Answered? && !s.mode.Reading?
    ensures CreationsAdd(before, Collected(s, id))
  {
    CollectBalances(before, s, id);
    hide Covered;
    hide Balanced;
    if s.tasks[id].Done? && s.mode.Blocked? {
      var counted := s.(tasks := s.tasks - {id}, receipt := Count(s.receipt, s.tasks[id].outcome));
      SpawnCreations(before, counted, s.mode.frame);
    }
  }

  lemma EventCreations(c: Config, before: set<Digest>, s: State, ok: bool)
    requires CreationsAdd(before, s) && s.events != [] && s.mode.Reading? && s.nextId !in s.tasks
    ensures CreationsAdd(before, HandleEvent(c, s, ok))
  {
    hide Matches;
    hide Covered;
    hide Balanced;
    if s.events[0].Complete? && s.frame.Some? {
      var rest := s.(events := s.events[1..], played := s.played + [s.events[0]], frame := None);
      SpawnCreations(before, rest, s.frame.value);
    }
  }

  lemma OtherCreations(c: Config, before: set<Digest>, s: State, m: Move)
    requires ValidCore(c.ReaderLimits(), s.core) && CreationsAdd(before, s) && Enabled(c, s, m)
    requires m.TakeChunk? || m.EndBody? || m.Answer?
    ensures CreationsAdd(before, Step(c, s, m))
  {
    hide Consume;
    hide Covered;
    hide Balanced;
  }

  lemma StepCreations(c: Config, before: set<Digest>, s: State, m: Move)
    requires ValidCore(c.ReaderLimits(), s.core) && Bounded(c, s)
    requires CreationsAdd(before, s) && !m.Elsewhere?
    ensures CreationsAdd(before, Step(c, s, m))
  {
    hide CreationsAdd;
    if Enabled(c, s, m) {
      match m {
        case TakeEvent(ok) => EventCreations(c, before, s, ok);
        case RunTask(id, ok) => PutCreations(before, s, id, ok);
        case Collect(id) => CollectCreations(before, s, id);
        case _ => OtherCreations(c, before, s, m);
      }
    }
  }

  // Whole runs.

  function Chunks(chunks: seq<Bytes>): seq<Item> {
    seq(|chunks|, i requires 0 <= i < |chunks| => Chunk(chunks[i]))
  }

  /** What has been read and what is still to come make up the body. */
  ghost predicate Whole(body: seq<Item>, s: State) {
    && (Going(s) ==> body == Chunks(s.taken) + s.input)
    && (s.mode.Draining? ==> s.input == [])
  }

  lemma StepWhole(c: Config, body: seq<Item>, s: State, m: Move)
    requires ValidCore(c.ReaderLimits(), s.core) && Whole(body, s)
    ensures Whole(body, Step(c, s, m))
  {
    hide Consume;
    hide Matches;
    if Enabled(c, s, m) && m.TakeChunk? {
      var t := ReadChunk(c, s);
      if Going(t) {
        assert Chunks(t.taken) == Chunks(s.taken) + [s.input[0]];
      }
    }
  }

  /** What a receipt promises. */
  ghost predicate Succeeded(c: Config, body: seq<Item>, s: State, receipt: Receipt) {
    && body == Chunks(s.taken)
    && Flatten(s.taken) == Encode(s.sent)
    && Fits(c.ReaderLimits(), 0, 0, s.sent)
    && |s.sent| == c.declaredBlobs && TotalBytes(s.sent) == c.declaredBytes
    && (forall i | 0 <= i < |s.sent| :: Verified(c, s.sent[i]) && IsStored(s, s.sent[i].digest))
    && receipt.created + receipt.existing == c.declaredBlobs
  }

  ghost predicate Kept(c: Config, body: seq<Item>, s: State) {
    && Invariant(c, s)
    && Whole(body, s)
    && (s.mode.Answered? && s.mode.outcome.Stored? ==> Succeeded(c, body, s, s.mode.outcome.receipt))
  }

  /** The reader finished, so the frames sent are the pack. */
  lemma FinishedReading(c: Config, s: State)
    requires Following(c, s) && s.mode.Draining? && Finish(s.core).Ok?
    ensures Flatten(s.taken) == Encode(s.sent) && Fits(c.ReaderLimits(), 0, 0, s.sent)
    ensures s.core.blobs == |s.sent| && s.core.payloadBytes == TotalBytes(s.sent)
  {
    assert s.played + [] == s.played;
    ReadingPlays(c.ReaderLimits(), s.taken);
    PlayRebuilds(s.played);
    assert s.sent + [] == s.sent;
    ReaderAcceptsExactlyPacks(c.ReaderLimits(), s.taken);
  }

  lemma ConcludeSucceeds(c: Config, body: seq<Item>, s: State)
    requires Invariant(c, s) && Whole(body, s) && s.mode.Draining? && s.tasks == map[]
    ensures var t := Conclude(c, s);
            t.mode.outcome.Stored? ==> Succeeded(c, body, t, t.mode.outcome.receipt)
  {
    hide Following;
    hide Flatten;
    hide Encode;
    hide TotalBytes;
    hide Matches;
    hide Fits;
    if Conclude(c, s).mode.outcome.Stored? {
      FinishedReading(c, s);
      assert Chunks(s.taken) + [] == Chunks(s.taken);
    }
  }

  lemma StepKept(c: Config, body: seq<Item>, s: State, m: Move)
    requires Kept(c, body, s)
    ensures Kept(c, body, Step(c, s, m))
  {
    StepFollows(c, s, m);
    StepBounded(c, s, m);
    StepVerified(c, s, m);
    StepAccounted(c, s, m);
    StepWhole(c, body, s, m);
    hide Following;
    hide AllVerified;
    hide Accounted;
    AnswerKept(c, body, s, m);
  }

  lemma AnswerKept(c: Config, body: seq<Item>, s: State, m: Move)
    requires Kept(c, body, s)
    ensures var t := Step(c, s, m);
            t.mode.Answered? && t.mode.outcome.Stored? ==> Succeeded(c, body, t, t.mode.outcome.receipt)
  {
    hide Following;
    hide Accounted;
    hide Consume;
    hide Matches;
    if Enabled(c, s, m) && m.Answer? && s.mode.Draining? {
      ConcludeSucceeds(c, body, s);
    }
  }

  ghost predicate VerifiedStore(c: Config, objects: map<Digest, Bytes>) {
    forall d | d in objects :: Matches(c.hasher, d, objects[d])
  }

  lemma OpenKept(c: Config, body: seq<Item>, objects: map<Digest, Bytes>, rows: set<Digest>)
    requires VerifiedStore(c, objects)
    ensures Kept(c, body, AtStart(c, body, objects, rows))
    ensures CreationsAdd(objects.Keys, AtStart(c, body, objects, rows))
  {
    var s := AtStart(c, body, objects, rows);
    assert ReadChunks(c.ReaderLimits(), []) == Accepted([], FRESH);
    assert s.played + s.events == [];
    assert Writers(s.tasks) == {};
  }

  /**
   In every run: at most `max(1, concurrency)` stores are uncollected, none is
   left when the handler answers, only verified bytes are stored, and a receipt
   means that the whole body was a pack carrying what its headers declared, all
   of it now stored and registered, each frame counted once.
   */
  lemma {:induction false} EveryRunIsKept(
    c: Config, body: seq<Item>, objects: map<Digest, Bytes>, rows: set<Digest>, moves: seq<Move>)
    requires VerifiedStore(c, objects)
    ensures var s := Run(c, AtStart(c, body, objects, rows), moves);
            && |s.tasks| <= (if c.concurrency == 0 then 1 else c.concurrency)
            && (s.mode.Answered? ==> s.tasks == map[])
            && VerifiedStore(c, s.objects)
            && (s.mode.Answered? && s.mode.outcome.Stored? ==> Succeeded(c, body, s, s.mode.outcome.receipt))
    ensures Kept(c, body, Run(c, AtStart(c, body, objects, rows), moves))
  {
    hide Succeeded;
    if moves == [] {
      OpenKept(c, body, objects, rows);
    } else {
      EveryRunIsKept(c, body, objects, rows, moves[..|moves| - 1]);
      StepKept(c, body, Run(c, AtStart(c, body, objects, rows), moves[..|moves| - 1]), moves[|moves| - 1]);
    }
  }

  /** A receipt counts as created exactly the distinct digests that were not there before. */
  ghost predicate CountsDistinct(before: set<Digest>, s: State) {
    s.mode.Answered? && s.mode.outcome.Stored? ==>
      s.mode.outcome.receipt.created == |DigestsOf(s.sent) - before|
  }

  lemma {:induction false} RunCreations(
    c: Config, body: seq<Item>, objects: map<Digest, Bytes>, rows: set<Digest>, moves: seq<Move>)
    requires VerifiedStore(c, objects)
    requires forall i | 0 <= i < |moves| :: !moves[i].Elsewhere?
    ensures var s := Run(c, AtStart(c, body, objects, rows), moves);
            CreationsAdd(objects.Keys, s) && CountsDistinct(objects.Keys, s)
  {
    var start := AtStart(c, body, objects, rows);
    if moves == [] {
      OpenKept(c, body, objects, rows);
    } else {
      var init, m := moves[..|moves| - 1], moves[|moves| - 1];
      RunCreations(c, body, objects, rows, init);
      EveryRunIsKept(c, body, objects, rows, init);
      StepCreations(c, objects.Keys, Run(c, start, init), m);
      StepCounts(c, objects.Keys, Run(c, start, init), m);
    }
  }

  lemma StepCounts(c: Config, before: set<Digest>, s: State, m: Move)
    requires Invariant(c, s) && CreationsAdd(before, s) && CountsDistinct(before, s)
    ensures CountsDistinct(before, Step(c, s, m))
  {
    hide CreationsAdd;
    hide Accounted;
    hide AllVerified;
    hide Consume;
    hide Matches;
    hide Following;
    hide DigestsOf;
    if Enabled(c, s, m) && m.Answer? && s.mode.Draining? {
      CreatedDistinct(before, s);
    }
  }

  lemma CreatedDistinct(before: set<Digest>, s: State)
    requires CreationsAdd(before, s) && Accounted(s) && s.mode.Draining? && s.tasks == map[]
    ensures s.receipt.created == |DigestsOf(s.sent) - before|
  {
    DigestsMembers(s.sent);
    hide DigestsOf;
    assert Writers(s.tasks) == {};
    forall d | d in DigestsOf(s.sent) ensures d in s.objects.Keys {
      var i :| 0 <= i < |s.sent| && s.sent[i].digest == d;
      assert !Underway(s, d);
    }
    hide Covered;
    hide Accounted;
    SetGain(before, s.objects.Keys, DigestsOf(s.sent));
  }

  lemma SetGain(before: set<Digest>, after: set<Digest>, gained: set<Digest>)
    requires before <= after <= before + gained && gained <= after
    ensures |gained - before| == |after| - |before|
  {
    assert after == before + (gained - before);
  }
}
