/**
 A well-formed pack whose stores and disk cooperate is accepted in every
 completion order, and no upload gets stuck or runs for ever.
 */
module PackAcceptance {
  import opened Encoding
  import opened Digests
  import opened Pack
  import opened Streams
  import opened PackGrammar
  import opened PackFrames
  import opened PackUpload

  predicate Cooperates(m: Move) {
    match m
    case TakeEvent(ok) => ok
    case RunTask(_, ok) => ok
    case _ => true
  }

  /** The body carries `frames`, as the headers say, and every frame hashes to its name. */
  ghost predicate GoodPack(c: Config, chunks: seq<Bytes>, frames: seq<Frame>) {
    && c.declaredBlobs <= MAX_BATCH_ITEMS && c.declaredBytes <= c.maxBlobBytes
    && Fits(c.ReaderLimits(), 0, 0, frames)
    && Flatten(chunks) == Encode(frames)
    && |frames| == c.declaredBlobs && TotalBytes(frames) == c.declaredBytes
    && forall i | 0 <= i < |frames| :: Verified(c, frames[i])
  }

  /** Nothing has gone wrong. */
  ghost predicate Smooth(s: State) {
    && !s.mode.Failing?
    && (s.mode.Answered? ==> s.mode.outcome.Stored?)
    && (forall id | id in s.tasks :: !s.tasks[id].Lost?)
  }

  lemma GoodPackReads(c: Config, chunks: seq<Bytes>, frames: seq<Frame>)
    requires GoodPack(c, chunks, frames)
    ensures var read := ReadChunks(c.ReaderLimits(), chunks);
            && read.Accepted? && Finish(read.core).Ok?
            && read.core.blobs == c.declaredBlobs && read.core.payloadBytes == c.declaredBytes
            && Play(read.events) == Some(Deck(frames, None))
  {
    var limits := c.ReaderLimits();
    ReaderAcceptsExactlyPacks(limits, chunks);
    var read := ReadChunks(limits, chunks);
    var rebuilt := Rebuild(Tokens(read.events));
    EncodedPackReads(limits, frames);
    EncodedPackReads(limits, rebuilt);
    assert rebuilt == frames;
    ReadingPlays(limits, chunks);
    PlayRebuilds(read.events);
    var deck := Play(read.events).value;
    assert deck.closed + [] == deck.closed;
  }

  /** A prefix of a list of chunks that is itself made of chunks. */
  lemma ChunksPrefix(chunks: seq<Bytes>, taken: seq<Bytes>, input: seq<Item>)
    requires Chunks(chunks) == Chunks(taken) + input
    ensures |taken| <= |chunks| && chunks == taken + chunks[|taken|..] && input == Chunks(chunks[|taken|..])
  {
    assert |Chunks(chunks)| == |taken| + |input|;
    forall i | 0 <= i < |taken| ensures chunks[i] == taken[i] {
      assert Chunks(chunks)[i] == Chunks(taken)[i];
    }
    forall i | 0 <= i < |input| ensures input[i] == Chunk(chunks[|taken| + i]) {
      assert Chunks(chunks)[|taken| + i] == input[i];
    }
  }

  /** The reader does not refuse the next chunk of a stream it accepts as a whole. */
  lemma NextChunkAccepted(limits: Limits, chunks: seq<Bytes>, n: nat, core: Core)
    requires n < |chunks| && ReadChunks(limits, chunks).Accepted?
    requires ReadChunks(limits, chunks[..n]).Accepted? && ReadChunks(limits, chunks[..n]).core == core
    requires ValidCore(limits, core)
    ensures Consume(limits, core, chunks[n]).Accepted?
  {
    hide Consume;
    hide ReadChunks;
    assert chunks == chunks[..n] + [chunks[n]] + chunks[n + 1..];
    ReadPrefix(limits, chunks[..n] + [chunks[n]], chunks[n + 1..]);
    ReadMore(limits, chunks[..n], chunks[n]);
  }

  lemma ChunkSmooth(c: Config, chunks: seq<Bytes>, frames: seq<Frame>, s: State)
    requires GoodPack(c, chunks, frames) && Invariant(c, s) && Whole(Chunks(chunks), s) && Smooth(s)
    requires Enabled(c, s, TakeChunk)
    ensures Smooth(ReadChunk(c, s))
  {
    var n := |s.taken|;
    GoodPackReads(c, chunks, frames);
    ChunksPrefix(chunks, s.taken, s.input);
    hide GoodPack;
    hide AllVerified;
    hide Accounted;
    hide ReadChunks;
    hide Consume;
    hide Play;
    assert s.taken == chunks[..n];
    assert s.input[0] == Chunk(chunks[n]);
    NextChunkAccepted(c.ReaderLimits(), chunks, n, s.core);
  }

  /** What a handler has played and will play is the beginning of what a good pack says. */
  lemma PlaysTheBeginning(c: Config, chunks: seq<Bytes>, s: State)
    requires Following(c, s) && Whole(Chunks(chunks), s) && s.mode.Reading?
    requires ReadChunks(c.ReaderLimits(), chunks).Accepted?
    ensures s.played + s.events <= ReadChunks(c.ReaderLimits(), chunks).events
  {
    hide Play;
    ChunksPrefix(chunks, s.taken, s.input);
    ReadPrefix(c.ReaderLimits(), s.taken, chunks[|s.taken|..]);
  }

  /** A frame the handler closes is one of the pack's frames. */
  lemma ClosedIsInPack(c: Config, chunks: seq<Bytes>, frames: seq<Frame>, s: State)
    requires GoodPack(c, chunks, frames) && Following(c, s) && Whole(Chunks(chunks), s)
    requires s.mode.Reading? && s.events != [] && s.events[0].Complete?
    ensures s.frame.Some? && Verified(c, s.frame.value)
  {
    hide ReadChunks;
    hide Play;
    hide Verified;
    hide Whole;
    hide Fits;
    hide Flatten;
    hide Encode;
    hide TotalBytes;
    GoodPackReads(c, chunks, frames);
    PlaysTheBeginning(c, chunks, s);
    NextPlays(c, s);
    BeginningCloses(s.played, s.events, ReadChunks(c.ReaderLimits(), chunks).events, frames);
    assert s.sent + [] == s.sent;
    LastOfPrefix(s.sent, s.frame.value, frames);
  }

  /** After one more event of a stream that lays out `frames`, the closed frames are the first of them. */
  lemma BeginningCloses(played: seq<PackEvent>, events: seq<PackEvent>, all: seq<PackEvent>, frames: seq<Frame>)
    requires events != [] && played + events <= all && Play(all) == Some(Deck(frames, None))
    ensures Play(played + [events[0]]).Some? && Play(played + [events[0]]).value.closed <= frames
  {
    hide Play;
    var next := played + [events[0]];
    assert next == (played + events)[..|next|];
    assert next + all[|next|..] == all;
    PlayPrefix(next, all[|next|..]);
  }

  lemma LastOfPrefix(before: seq<Frame>, f: Frame, frames: seq<Frame>)
    requires before + [f] <= frames
    ensures |before| < |frames| && frames[|before|] == f
  {
    assert (before + [f])[|before|] == f;
  }

  lemma AnswerSmooth(c: Config, chunks: seq<Bytes>, frames: seq<Frame>, s: State)
    requires GoodPack(c, chunks, frames) && Invariant(c, s) && Whole(Chunks(chunks), s) && Smooth(s)
    requires Enabled(c, s, Answer)
    ensures Smooth(Conclude(c, s))
  {
    GoodPackReads(c, chunks, frames);
    ChunksPrefix(chunks, s.taken, s.input);
    assert chunks == s.taken;
  }

  lemma EventSmooth(c: Config, chunks: seq<Bytes>, frames: seq<Frame>, s: State)
    requires GoodPack(c, chunks, frames) && Invariant(c, s) && Whole(Chunks(chunks), s) && Smooth(s)
    requires Enabled(c, s, TakeEvent(true))
    ensures Smooth(HandleEvent(c, s, true))
  {
    hide Following;
    hide AllVerified;
    hide Accounted;
    hide GoodPack;
    hide Matches;
    hide Whole;
    hide PlayOne;
    EventFollows(c, s, true);
    if s.events[0].Complete? {
      ClosedIsInPack(c, chunks, frames, s);
    }
  }

  lemma OtherSmooth(c: Config, s: State, m: Move)
    requires Invariant(c, s) && Smooth(s) && Cooperates(m)
    requires m.RunTask? || m.Collect? || m.EndBody? || m.Elsewhere?
    ensures Smooth(Step(c, s, m))
  {
    hide Following;
    hide AllVerified;
    hide Accounted;
    hide Consume;
    hide Matches;
  }

  /** Whatever the order in which stores finish, a good pack is never declined. */
  lemma {:induction false} GoodPackIsAccepted(
    c: Config, chunks: seq<Bytes>, frames: seq<Frame>, objects: map<Digest, Bytes>, rows: set<Digest>, moves: seq<Move>)
    requires GoodPack(c, chunks, frames) && VerifiedStore(c, objects)
    requires forall i | 0 <= i < |moves| :: Cooperates(moves[i])
    ensures Smooth(Run(c, AtStart(c, Chunks(chunks), objects, rows), moves))
  {
    if moves != [] {
      var init, m := moves[..|moves| - 1], moves[|moves| - 1];
      GoodPackIsAccepted(c, chunks, frames, objects, rows, init);
      EveryRunIsKept(c, Chunks(chunks), objects, rows, init);
      var s := Run(c, AtStart(c, Chunks(chunks), objects, rows), init);
      hide GoodPack;
      hide Kept;
      hide Smooth;
      StepSmooth(c, chunks, frames, s, m);
    }
  }

  lemma StepSmooth(c: Config, chunks: seq<Bytes>, frames: seq<Frame>, s: State, m: Move)
    requires GoodPack(c, chunks, frames) && Kept(c, Chunks(chunks), s) && Smooth(s) && Cooperates(m)
    ensures Smooth(Step(c, s, m))
  {
    hide GoodPack;
    hide Smooth;
    hide Whole;
    hide Following;
    hide AllVerified;
    hide Accounted;
    hide Succeeded;
    if Enabled(c, s, m) {
      match m {
        case TakeChunk => ChunkSmooth(c, chunks, frames, s);
        case TakeEvent(ok) => EventSmooth(c, chunks, frames, s);
        case Answer => AnswerSmooth(c, chunks, frames, s);
        case _ => OtherSmooth(c, s, m);
      }
    }
  }

  // Progress.

  /** Until the handler has answered, it or one of its stores can move. */
  lemma NeverStuck(c: Config, body: seq<Item>, objects: map<Digest, Bytes>, rows: set<Digest>, moves: seq<Move>)
    requires VerifiedStore(c, objects)
    ensures var s := Run(c, AtStart(c, body, objects, rows), moves);
            s.mode.Answered? || exists m :: Enabled(c, s, m) && Cooperates(m) && !m.Elsewhere?
  {
    EveryRunIsKept(c, body, objects, rows, moves);
    var s := Run(c, AtStart(c, body, objects, rows), moves);
    if !s.mode.Answered? {
      var m := NextMove(c, s);
      assert Enabled(c, s, m) && Cooperates(m) && !m.Elsewhere?;
    }
  }

  ghost function NextMove(c: Config, s: State): (m: Move)
    requires !s.mode.Answered? && Bounded(c, s)
    ensures Enabled(c, s, m) && Cooperates(m) && !m.Elsewhere?
  {
    if s.mode.Reading? then
      if s.events != [] then TakeEvent(true) else if s.input != [] then TakeChunk else EndBody
    else if s.tasks == map[] then Answer
    else
      var id :| id in s.tasks;
      if Finished(s.tasks[id]) then Collect(id) else RunTask(id, true)
  }

  function Working(tasks: map<nat, Task>): set<nat> {
    set id | id in tasks && !Finished(tasks[id])
  }

  function Waiting(tasks: map<nat, Task>): set<nat> {
    set id | id in tasks && tasks[id].Spawned?
  }

  function TaskWork(tasks: map<nat, Task>): nat {
    |tasks| + |Working(tasks)| + |Waiting(tasks)|
  }

  function ModeRank(m: Mode): nat {
    match m
    case Answered(_) => 0
    case Failing(_) => 1
    case Draining => 2
    case _ => 3
  }

  /** Events to handle, a blocked handler counting for half of one. */
  function EventWork(s: State): nat {
    2 * |s.events| + (if s.mode.Blocked? then 1 else 0)
  }

  /** Lexicographically smaller: body left, then events, then work in the stores, then the handler's mode. */
  predicate Nearer(t: State, s: State) {
    || |t.input| < |s.input|
    || (|t.input| == |s.input| && (
          || EventWork(t) < EventWork(s)
          || (EventWork(t) == EventWork(s) && (
                || TaskWork(t.tasks) < TaskWork(s.tasks)
                || (TaskWork(t.tasks) == TaskWork(s.tasks) && ModeRank(t.mode) < ModeRank(s.mode))))))
  }

  lemma TaskStepWorks(tasks: map<nat, Task>, id: nat, t: Task)
    requires id in tasks && !Finished(tasks[id])
    requires Finished(t) || (tasks[id].Spawned? && t.Put?)
    ensures TaskWork(tasks[id := t]) < TaskWork(tasks)
  {
    assert tasks[id := t].Keys == tasks.Keys;
    assert Waiting(tasks[id := t]) == Waiting(tasks) - {id};
    assert Working(tasks[id := t]) == if Finished(t) then Working(tasks) - {id} else Working(tasks);
    assert id in Working(tasks) && (id in Waiting(tasks) <==> tasks[id].Spawned?);
    hide Waiting;
    hide Working;
    OneFewer(Waiting(tasks), id);
    OneFewer(Working(tasks), id);
  }

  lemma OneFewer(s: set<nat>, x: nat)
    ensures |s - {x}| == if x in s then |s| - 1 else |s|
  {
    if x !in s {
      assert s - {x} == s;
    }
  }

  lemma CollectWorks(tasks: map<nat, Task>, id: nat)
    requires id in tasks && Finished(tasks[id])
    ensures TaskWork(tasks - {id}) < TaskWork(tasks)
  {
    RemoveOne(tasks, id);
    assert Waiting(tasks - {id}) == Waiting(tasks);
    assert Working(tasks - {id}) == Working(tasks);
  }

  /** Every move of the handler and its stores brings the answer nearer, so every run of them ends. */
  lemma EveryMoveIsProgress(c: Config, s: State, m: Move)
    requires ValidCore(c.ReaderLimits(), s.core) && Enabled(c, s, m) && !m.Elsewhere?
    ensures Nearer(Step(c, s, m), s)
  {
    hide Consume;
    hide Matches;
    hide TaskWork;
    match m {
      case RunTask(id, ok) => TaskStepWorks(s.tasks, id, Advanced(s, id, ok).tasks[id]);
      case Collect(id) => CollectWorks(s.tasks, id);
      case _ =>
    }
  }

  // Ends.

  /**
   Who moves: before every turn others may store what they like, and then the
   handler or one of its stores moves. Both may depend on all that happened.
   */
  datatype Scheduler = Scheduler(interfere: (nat, State) -> seq<Move>, choose: (nat, State) -> Move)

  /** Someone moves as long as the handler has not answered. */
  ghost predicate Diligent(c: Config, schedule: Scheduler) {
    && (forall n, s, i | 0 <= i < |schedule.interfere(n, s)| :: schedule.interfere(n, s)[i].Elsewhere?)
    && (forall n, s: State | ValidCore(c.ReaderLimits(), s.core) && Bounded(c, s) && !s.mode.Answered? ::
          Enabled(c, s, schedule.choose(n, s)) && !schedule.choose(n, s).Elsewhere?)
  }

  /** The state after `turns` turns, or at the answer; turn `n` comes next. */
  function After(c: Config, s: State, schedule: Scheduler, n: nat, turns: nat): (t: State)
    requires ValidCore(c.ReaderLimits(), s.core)
    ensures ValidCore(c.ReaderLimits(), t.core)
    decreases turns
  {
    if turns == 0 || s.mode.Answered? then s
    else After(c, OneTurn(c, s, schedule, n), schedule, n + 1, turns - 1)
  }

  function OneTurn(c: Config, s: State, schedule: Scheduler, n: nat): (t: State)
    requires ValidCore(c.ReaderLimits(), s.core)
    ensures ValidCore(c.ReaderLimits(), t.core)
  {
    var u := Run(c, s, schedule.interfere(n, s));
    Step(c, u, schedule.choose(n, u))
  }

  /** What others store changes the objects and nothing else. */
  lemma {:induction false} InterferenceIsHarmless(c: Config, s: State, moves: seq<Move>)
    requires ValidCore(c.ReaderLimits(), s.core)
    requires forall i | 0 <= i < |moves| :: moves[i].Elsewhere?
    ensures Run(c, s, moves) == s.(objects := Run(c, s, moves).objects)
  {
    if moves != [] {
      InterferenceIsHarmless(c, s, moves[..|moves| - 1]);
    }
  }

  /** A turn brings the answer nearer. */
  lemma TurnIsProgress(c: Config, s: State, schedule: Scheduler, n: nat)
    requires ValidCore(c.ReaderLimits(), s.core) && Bounded(c, s) && Diligent(c, schedule) && !s.mode.Answered?
    ensures Nearer(OneTurn(c, s, schedule, n), s) && Bounded(c, OneTurn(c, s, schedule, n))
  {
    hide Run;
    hide Step;
    hide TaskWork;
    InterferenceIsHarmless(c, s, schedule.interfere(n, s));
    var u := Run(c, s, schedule.interfere(n, s));
    assert Bounded(c, u);
    EveryMoveIsProgress(c, u, schedule.choose(n, u));
    StepBounded(c, u, schedule.choose(n, u));
  }

  ghost predicate Ends(c: Config, s: State, schedule: Scheduler, n: nat)
    requires ValidCore(c.ReaderLimits(), s.core)
  {
    exists turns: nat :: After(c, s, schedule, n, turns).mode.Answered?
  }

  /** Whatever is uploaded, whatever fails and whoever moves when, the handler answers in the end. */
  lemma {:induction false} EveryUploadEnds(c: Config, s: State, schedule: Scheduler, n: nat)
    requires ValidCore(c.ReaderLimits(), s.core) && Bounded(c, s) && Diligent(c, schedule)
    ensures Ends(c, s, schedule, n)
    decreases |s.input|, EventWork(s), TaskWork(s.tasks), ModeRank(s.mode)
  {
    hide Bounded;
    hide Diligent;
    hide OneTurn;
    hide EventWork;
    hide TaskWork;
    hide ModeRank;
    if s.mode.Answered? {
      assert After(c, s, schedule, n, 0).mode.Answered?;
    } else {
      TurnIsProgress(c, s, schedule, n);
      var t := OneTurn(c, s, schedule, n);
      EveryUploadEnds(c, t, schedule, n + 1);
      var turns: nat :| After(c, t, schedule, n + 1, turns).mode.Answered?;
      assert After(c, s, schedule, n, turns + 1).mode.Answered?;
    }
  }

  /** A schedule in which stores and disk do what they are asked. */
  ghost predicate Cooperative(schedule: Scheduler) {
    forall n, s :: Cooperates(schedule.choose(n, s))
  }

  lemma {:induction false} RunSmooth(c: Config, chunks: seq<Bytes>, frames: seq<Frame>, s: State, moves: seq<Move>)
    requires GoodPack(c, chunks, frames) && Kept(c, Chunks(chunks), s) && Smooth(s)
    requires forall i | 0 <= i < |moves| :: Cooperates(moves[i])
    ensures Kept(c, Chunks(chunks), Run(c, s, moves)) && Smooth(Run(c, s, moves))
  {
    if moves != [] {
      var init, m := moves[..|moves| - 1], moves[|moves| - 1];
      RunSmooth(c, chunks, frames, s, init);
      hide GoodPack;
      hide Smooth;
      hide Invariant;
      hide Whole;
      hide Succeeded;
      StepKept(c, Chunks(chunks), Run(c, s, init), m);
      StepSmooth(c, chunks, frames, Run(c, s, init), m);
    }
  }

  lemma TurnSmooth(c: Config, chunks: seq<Bytes>, frames: seq<Frame>, s: State, schedule: Scheduler, n: nat)
    requires GoodPack(c, chunks, frames) && Kept(c, Chunks(chunks), s) && Smooth(s)
    requires Diligent(c, schedule) && Cooperative(schedule)
    ensures var t := OneTurn(c, s, schedule, n); Kept(c, Chunks(chunks), t) && Smooth(t)
  {
    hide GoodPack;
    hide Smooth;
    hide Whole;
    hide Succeeded;
    hide Following;
    hide Bounded;
    hide AllVerified;
    hide Accounted;
    hide Run;
    var u := Run(c, s, schedule.interfere(n, s));
    RunSmooth(c, chunks, frames, s, schedule.interfere(n, s));
    StepKept(c, Chunks(chunks), u, schedule.choose(n, u));
    StepSmooth(c, chunks, frames, u, schedule.choose(n, u));
  }

  lemma {:induction false} AfterSmooth(
    c: Config, chunks: seq<Bytes>, frames: seq<Frame>, s: State, schedule: Scheduler, n: nat, turns: nat)
    requires GoodPack(c, chunks, frames) && Kept(c, Chunks(chunks), s) && Smooth(s)
    requires Diligent(c, schedule) && Cooperative(schedule)
    ensures Kept(c, Chunks(chunks), After(c, s, schedule, n, turns)) && Smooth(After(c, s, schedule, n, turns))
    decreases turns
  {
    hide GoodPack;
    hide Smooth;
    hide Diligent;
    hide Cooperative;
    hide OneTurn;
    hide Whole;
    hide Succeeded;
    hide Following;
    hide Bounded;
    hide AllVerified;
    hide Accounted;
    if turns > 0 && !s.mode.Answered? {
      TurnSmooth(c, chunks, frames, s, schedule, n);
      AfterSmooth(c, chunks, frames, OneTurn(c, s, schedule, n), schedule, n + 1, turns - 1);
    }
  }

  /** There are such schedules. */
  lemma SchedulesExist(c: Config)
    ensures exists schedule :: Diligent(c, schedule) && Cooperative(schedule)
  {
    var schedule := Scheduler(
      (n: nat, s: State) => [],
      (n: nat, s: State) =>
        if ValidCore(c.ReaderLimits(), s.core) && Bounded(c, s) && !s.mode.Answered? then NextMove(c, s) else TakeChunk);
    hide Bounded;
    hide ValidCore;
    assert Diligent(c, schedule) && Cooperative(schedule);
  }

  /** A good pack ends up stored: under every diligent schedule in which stores cooperate there comes a receipt for all of it. */
  lemma GoodPackIsStored(
    c: Config, chunks: seq<Bytes>, frames: seq<Frame>, objects: map<Digest, Bytes>, rows: set<Digest>, schedule: Scheduler)
    requires GoodPack(c, chunks, frames) && VerifiedStore(c, objects)
    requires Diligent(c, schedule) && Cooperative(schedule)
    ensures var start := AtStart(c, Chunks(chunks), objects, rows);
            exists turns: nat ::
              var s := After(c, start, schedule, 0, turns);
              && s.mode.Answered? && s.mode.outcome.Stored?
              && Succeeded(c, Chunks(chunks), s, s.mode.outcome.receipt)
  {
    var start := AtStart(c, Chunks(chunks), objects, rows);
    OpenKept(c, Chunks(chunks), objects, rows);
    assert Smooth(start);
    hide GoodPack;
    hide Smooth;
    hide AtStart;
    hide Invariant;
    hide Diligent;
    hide After;
    assert Bounded(c, start) by { InvariantIsBounded(c, start); }
    EveryUploadEnds(c, start, schedule, 0);
    var turns: nat :| After(c, start, schedule, 0, turns).mode.Answered?;
    AfterSmooth(c, chunks, frames, start, schedule, 0, turns);
    SmoothAnswers(After(c, start, schedule, 0, turns));
  }

  lemma SmoothAnswers(s: State)
    requires Smooth(s) && s.mode.Answered?
    ensures s.mode.outcome.Stored?
  {
  }

  lemma InvariantIsBounded(c: Config, s: State)
    requires Invariant(c, s)
    ensures Bounded(c, s)
  {
  }
}
