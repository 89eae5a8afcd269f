/**
 Who shares the spool, and that each of them does what it owes the others: a
 single blob upload, whose own test bounds its file, and a pack upload, which
 writes what the reader hands it without a test.
 */
module SpoolSharing {
  import opened Encoding
  import opened Digests
  import opened Spool
  import Pack
  import opened PackGrammar
  import PackFrames
  import opened Sequences
  import opened Streams
  import PackUpload
  import BlobUpload
  import PackAcceptance

  /** The file after the first `k` writes. */
  function Size(writes: seq<nat>, k: nat): nat
    requires k <= |writes|
  {
    Total(writes[..k])
  }

  lemma SizeNone(writes: seq<nat>)
    ensures Size(writes, 0) == 0
  {
    assert writes[..0] == [];
  }

  lemma SizeNext(writes: seq<nat>, k: nat)
    requires k < |writes|
    ensures Size(writes, k + 1) == Size(writes, k) + writes[k] <= Total(writes)
  {
    assert writes[..k + 1] == writes[..k] + [writes[k]];
    TotalSnoc(writes[..k], writes[k]);
    TotalPrefix(writes, k + 1);
  }

  // A single blob.

  /** All a single upload does to the spool: its writes may stop anywhere. */
  function Plan(id: UploadId, declared: U64, writes: seq<nat>, n: nat): Move
    requires n < |writes| + 4
  {
    if n == 0 then Reserve(id, declared)
    else if n == 1 then CreateFile(id)
    else if n < |writes| + 2 then Write(id, writes[n - 2])
    else if n == |writes| + 2 then RemoveFile(id)
    else Release(id)
  }

  /** The spool as an upload sees it that has made `n` of its moves. */
  predicate At(s: Spool.State, id: UploadId, declared: U64, writes: seq<nat>, n: nat) {
    if n == 0 || n >= |writes| + 4 then id !in s.uploads
    else
      && id in s.uploads && s.uploads[id].declared == declared
      && s.uploads[id].file ==
           if n == 1 || n == |writes| + 3 then None else Some(Size(writes, n - 2))
  }

  lemma NextIsAllowed(s: Spool.State, id: UploadId, declared: U64, writes: seq<nat>, n: nat)
    requires n < |writes| + 4 && At(s, id, declared, writes, n) && Total(writes) <= declared
    requires n == 0 ==> !Admit(s.limited, s.free, declared).Refused?
    ensures var m := Plan(id, declared, writes, n); Allowed(s, m) && At(Spool.Step(s, m), id, declared, writes, n + 1)
  {
    hide Size;
    hide Total;
    hide Admit;
    SizeNone(writes);
    if 2 <= n < |writes| + 2 {
      SizeNext(writes, n - 2);
    }
  }

  /** What others do to the spool does not concern an upload. */
  lemma OthersKeepPlace(s: Spool.State, id: UploadId, declared: U64, writes: seq<nat>, n: nat, m: Move)
    requires At(s, id, declared, writes, n) && m.id != id
    ensures At(Spool.Step(s, m), id, declared, writes, n)
  {
  }

  datatype Turn = Mine | Theirs(m: Move)

  /** A single upload among others; `done` counts its own moves, `trace` lists everyone's. */
  datatype Single = Single(spool: Spool.State, done: nat, trace: seq<Move>)

  function Made(s: Single, m: Move): Single {
    s.(spool := Spool.Step(s.spool, m), trace := s.trace + [m])
  }

  /** The next move of either; a refused reservation ends the upload before it began. */
  function Take(id: UploadId, declared: U64, writes: seq<nat>, s: Single, turn: Turn): Single {
    match turn
    case Mine =>
      if s.done >= |writes| + 4 || (s.done == 0 && Admit(s.spool.limited, s.spool.free, declared).Refused?) then s
      else Made(s, Plan(id, declared, writes, s.done)).(done := s.done + 1)
    case Theirs(m) => if m.id != id && Allowed(s.spool, m) then Made(s, m) else s
  }

  function TakeAll(id: UploadId, declared: U64, writes: seq<nat>, start: Single, turns: seq<Turn>): Single {
    if turns == [] then start
    else Take(id, declared, writes, TakeAll(id, declared, writes, start, turns[..|turns| - 1]), turns[|turns| - 1])
  }

  /** What happened on a spool of this size was allowed. */
  predicate Fair(maxBytes: U64, spool: Spool.State, trace: seq<Move>) {
    spool == Apply(Spool.Start(maxBytes), trace) && AllAllowed(Spool.Start(maxBytes), trace)
  }

  lemma FairStep(maxBytes: U64, spool: Spool.State, trace: seq<Move>, m: Move)
    requires Fair(maxBytes, spool, trace) && Allowed(spool, m)
    ensures Fair(maxBytes, Spool.Step(spool, m), trace + [m])
  {
    assert (trace + [m])[..|trace|] == trace;
  }

  /**
   A single upload that writes no more than it declared does what it owes,
   whatever the others do between its moves, so the bound on the spool holds; and
   when it is done nothing of it is left.
   */
  lemma {:induction false} SingleUploadIsFair(maxBytes: U64, id: UploadId, declared: U64, writes: seq<nat>, turns: seq<Turn>)
    requires Total(writes) <= declared
    ensures var s := TakeAll(id, declared, writes, Single(Spool.Start(maxBytes), 0, []), turns);
            && Fair(maxBytes, s.spool, s.trace) && At(s.spool, id, declared, writes, s.done)
            && Spool.Bounded(maxBytes, s.spool)
            && (s.done == |writes| + 4 ==> id !in s.spool.uploads)
  {
    var start := Single(Spool.Start(maxBytes), 0, []);
    var s := TakeAll(id, declared, writes, start, turns);
    if turns != [] {
      var init, turn := turns[..|turns| - 1], turns[|turns| - 1];
      SingleUploadIsFair(maxBytes, id, declared, writes, init);
      var before := TakeAll(id, declared, writes, start, init);
      hide Fair;
      hide At;
      hide Allowed;
      hide Spool.Step;
      hide Spool.Bounded;
      if s != before {
        var m := if turn.Mine? then Plan(id, declared, writes, before.done) else turn.m;
        if turn.Mine? {
          NextIsAllowed(before.spool, id, declared, writes, before.done);
        } else {
          OthersKeepPlace(before.spool, id, declared, writes, before.done, m);
        }
        FairStep(maxBytes, before.spool, before.trace, m);
      }
    }
    FairIsBounded(maxBytes, s.spool, s.trace);
  }

  /** So is a single upload that receives any body whatever. */
  lemma ReceivedBlobIsFair(
    hasher: Hasher, maxBlobBytes: U64, digest: Digest, items: seq<Item>, disk: nat -> bool, flushed: bool,
    maxBytes: U64, id: UploadId, turns: seq<Turn>)
    ensures var writes := BlobUpload.Receive(hasher, maxBlobBytes, digest, items, disk, flushed).1;
            var s := TakeAll(id, digest.size, writes, Single(Spool.Start(maxBytes), 0, []), turns);
            && Fair(maxBytes, s.spool, s.trace) && Spool.Bounded(maxBytes, s.spool)
            && (s.done == |writes| + 4 ==> id !in s.spool.uploads)
  {
    BlobUpload.ReceiveIsRight(hasher, maxBlobBytes, digest, items, disk, flushed);
    var writes := BlobUpload.Receive(hasher, maxBlobBytes, digest, items, disk, flushed).1;
    SingleUploadIsFair(maxBytes, id, digest.size, writes, turns);
  }

  lemma FairIsBounded(maxBytes: U64, spool: Spool.State, trace: seq<Move>)
    requires Fair(maxBytes, spool, trace)
    ensures Spool.Bounded(maxBytes, spool)
  {
    SpoolIsBounded(maxBytes, trace);
  }

  // A pack.

  /**
   The frame of a pack upload that has a file under number `k`: one being stored,
   or the latest one, which is being filled or waits for a slot.
   */
  function LiveAt(s: PackUpload.State, k: nat): Option<Frame> {
    if k in s.tasks then (if PackUpload.Finished(s.tasks[k]) then None else Some(s.tasks[k].frame))
    else if k != s.nextId || s.mode.Answered? then None
    else if s.mode.Blocked? then Some(s.mode.frame)
    else s.frame
  }

  /** A pack upload and the spool it shares with others. */
  datatype Joint = Joint(upload: PackUpload.State, spool: Spool.State, trace: seq<Move>)

  /** A frame goes: its file first, then its permits. */
  function Dropped(id: UploadId): seq<Move> {
    [RemoveFile(id), Release(id)]
  }

  predicate SpoolRefuses(j: Joint) {
    && j.upload.events != [] && j.upload.events[0].Started?
    && Admit(j.spool.limited, j.spool.free, j.upload.events[0].digest.size).Refused?
  }

  /** The handler's move, which fails where the spool refuses a frame. */
  function Effective(j: Joint, m: PackUpload.Move): PackUpload.Move {
    if m.TakeEvent? && SpoolRefuses(j) then PackUpload.TakeEvent(false) else m
  }

  /**
   What a move of request `r` does to the spool. Payload is written as it comes;
   a write that fails may have reached the disk all the same.
   */
  function Emitted(c: PackUpload.Config, r: nat, j: Joint, m: PackUpload.Move): seq<Move>
    requires PackUpload.Enabled(c, j.upload, m)
  {
    var s := j.upload;
    var current := (r, s.nextId);
    match m
    case TakeEvent(ok) =>
      (match s.events[0]
       case Started(d) =>
         if SpoolRefuses(j) then []
         else if ok then [Reserve(current, d.size), CreateFile(current)] else [Reserve(current, d.size), Release(current)]
       case Payload(bytes) => if s.frame.Some? then [Write(current, |bytes|)] else []
       case Complete =>
         if s.frame.Some? && !Matches(c.hasher, s.frame.value.digest, s.frame.value.payload) then Dropped(current) else [])
    case RunTask(id, ok) => if PackUpload.Finished(PackUpload.Advanced(s, id, ok).tasks[id]) then Dropped((r, id)) else []
    case Collect(id) => if s.mode.Blocked? && s.tasks[id].Lost? then Dropped(current) else []
    case Answer => if s.frame.Some? then Dropped(current) else []
    case _ => []
  }

  function JointStep(c: PackUpload.Config, r: nat, j: Joint, m: PackUpload.Move): (t: Joint)
    requires Pack.ValidCore(c.ReaderLimits(), j.upload.core)
    ensures Pack.ValidCore(c.ReaderLimits(), t.upload.core)
  {
    if !PackUpload.Enabled(c, j.upload, m) then j
    else
      var emitted := Emitted(c, r, j, m);
      Joint(PackUpload.Step(c, j.upload, Effective(j, m)), Apply(j.spool, emitted), j.trace + emitted)
  }

  /** The file of a live frame: as declared, and while all goes well exactly the payload so far. */
  predicate HasFile(frame: Option<Frame>, upload: Option<Upload>, exact: bool) {
    match (frame, upload)
    case (None, None) => true
    case (Some(f), Some(u)) =>
      && u.declared == f.digest.size && u.file.Some? && u.file.value <= u.declared
      && (exact ==> u.file.value == |f.payload|)
    case _ => false
  }

  function Entry(spool: Spool.State, id: UploadId): Option<Upload> {
    if id in spool.uploads then Some(spool.uploads[id]) else None
  }

  /** The request's live frames have their files, and it has no others. */
  ghost predicate Coupled(r: nat, j: Joint) {
    forall k: nat :: HasFile(LiveAt(j.upload, k), Entry(j.spool, (r, k)), PackUpload.Going(j.upload))
  }

  /** What the handler's own invariants say of its frames. */
  ghost predicate InOrder(c: PackUpload.Config, s: PackUpload.State) {
    && Pack.ValidCore(c.ReaderLimits(), s.core)
    && PackUpload.Following(c, s)
    && PackUpload.Bounded(c, s)
    && (s.mode.Blocked? ==> s.frame.None?)
  }

  lemma AppliesOne(s: Spool.State, m: Move)
    ensures Apply(s, [m]) == Spool.Step(s, m)
    ensures AllAllowed(s, [m]) <==> Allowed(s, m)
  {
    assert [m][..0] == [];
  }

  lemma AppliesTwo(s: Spool.State, a: Move, b: Move)
    ensures Apply(s, [a, b]) == Spool.Step(Spool.Step(s, a), b)
    ensures AllAllowed(s, [a, b]) <==> Allowed(s, a) && Allowed(Spool.Step(s, a), b)
  {
    AppliesOne(s, a);
    assert [a, b][..1] == [a];
  }

  /** Where a move may change the live frames. */
  function Touched(s: PackUpload.State, m: PackUpload.Move): nat {
    if m.RunTask? then m.id else s.nextId
  }

  /** A closed frame keeps its number, in a slot or waiting for one; one that does not match goes. */
  lemma CloseLive(c: PackUpload.Config, s: PackUpload.State, f: Frame)
    requires s.mode.Reading? && s.nextId !in s.tasks
    ensures var t := PackUpload.CloseFrame(c, s, f);
            && (forall k: nat | k != s.nextId :: LiveAt(t, k) == LiveAt(s, k))
            && LiveAt(t, s.nextId) == (if Matches(c.hasher, f.digest, f.payload) then Some(f) else None)
            && (PackUpload.Going(t) <==> Matches(c.hasher, f.digest, f.payload))
  {
    hide Matches;
  }

  /** Elsewhere they stay as they are. */
  lemma LiveElsewhere(c: PackUpload.Config, s: PackUpload.State, m: PackUpload.Move, k: nat)
    requires InOrder(c, s) && PackUpload.Enabled(c, s, m) && k != Touched(s, m)
    ensures LiveAt(PackUpload.Step(c, s, m), k) == LiveAt(s, k)
  {
    hide PackUpload.Following;
    hide Matches;
    hide Pack.Consume;
    hide PackUpload.CloseFrame;
    if m.TakeEvent? && s.events[0].Complete? && s.frame.Some? {
      CloseLive(c, s.(events := s.events[1..], played := s.played + [s.events[0]]), s.frame.value);
    }
  }

  lemma {:induction false} AppliesLocally(s: Spool.State, moves: seq<Move>, id: UploadId)
    requires forall i | 0 <= i < |moves| :: moves[i].id != id
    ensures Entry(Apply(s, moves), id) == Entry(s, id)
  {
    if moves != [] {
      AppliesLocally(s, moves[..|moves| - 1], id);
    }
  }

  /** The payload of the next event still fits the frame it belongs to. */
  lemma NextWriteFits(c: PackUpload.Config, s: PackUpload.State)
    requires InOrder(c, s) && s.mode.Reading? && s.events != [] && s.events[0].Payload? && s.frame.Some?
    ensures |s.frame.value.payload| + |s.events[0].bytes| <= s.frame.value.digest.size
  {
    PackUpload.EventFollows(c, s, true);
    var t := PackUpload.HandleEvent(c, s, true);
    PackFrames.NoFrameOverflows(c.ReaderLimits(), t.taken, t.played, t.events, t.core);
  }

  lemma AppliesNone(s: Spool.State)
    ensures Apply(s, []) == s && AllAllowed(s, [])
  {
  }

  /** A new frame gets a file, or gives back at once what it reserved. */
  lemma StartedCoupled(c: PackUpload.Config, r: nat, j: Joint, ok: bool)
    requires InOrder(c, j.upload) && Coupled(r, j)
    requires j.upload.mode.Reading? && j.upload.events != [] && j.upload.events[0].Started?
    ensures TouchedCoupled(c, r, j, PackUpload.TakeEvent(ok))
  {
    hide PackUpload.Following;
    hide PackUpload.CloseFrame;
    hide Apply;
    hide AllAllowed;
    hide Admit;
    PackUpload.EventFits(c, j.upload);
    var s, id := j.upload, (r, j.upload.nextId);
    var d := s.events[0].digest;
    assert HasFile(LiveAt(s, s.nextId), Entry(j.spool, id), true);
    AppliesNone(j.spool);
    AppliesTwo(j.spool, Reserve(id, d.size), CreateFile(id));
    AppliesTwo(j.spool, Reserve(id, d.size), Release(id));
  }

  /** A move is allowed, and leaves a file for the frame it concerns exactly when that frame lives on. */
  ghost predicate TouchedCoupled(c: PackUpload.Config, r: nat, j: Joint, m: PackUpload.Move)
    requires Pack.ValidCore(c.ReaderLimits(), j.upload.core) && PackUpload.Enabled(c, j.upload, m)
  {
    var t, emitted, k := PackUpload.Step(c, j.upload, Effective(j, m)), Emitted(c, r, j, m), Touched(j.upload, m);
    && AllAllowed(j.spool, emitted)
    && HasFile(LiveAt(t, k), Entry(Apply(j.spool, emitted), (r, k)), PackUpload.Going(t))
  }

  lemma PayloadCoupled(c: PackUpload.Config, r: nat, j: Joint, ok: bool)
    requires InOrder(c, j.upload) && Coupled(r, j)
    requires j.upload.mode.Reading? && j.upload.events != [] && j.upload.events[0].Payload?
    ensures TouchedCoupled(c, r, j, PackUpload.TakeEvent(ok))
  {
    hide PackUpload.Following;
    hide PackUpload.CloseFrame;
    hide Apply;
    hide AllAllowed;
    hide Admit;
    var s, id := j.upload, (r, j.upload.nextId);
    PackUpload.EventFits(c, s);
    NextWriteFits(c, s);
    assert HasFile(LiveAt(s, s.nextId), Entry(j.spool, id), true);
    AppliesOne(j.spool, Write(id, |s.events[0].bytes|));
  }

  lemma CompleteCoupled(c: PackUpload.Config, r: nat, j: Joint, ok: bool)
    requires InOrder(c, j.upload) && Coupled(r, j)
    requires j.upload.mode.Reading? && j.upload.events != [] && j.upload.events[0].Complete?
    ensures TouchedCoupled(c, r, j, PackUpload.TakeEvent(ok))
  {
    hide PackUpload.Following;
    hide PackUpload.CloseFrame;
    hide Apply;
    hide AllAllowed;
    hide Admit;
    hide Matches;
    var s, id := j.upload, (r, j.upload.nextId);
    PackUpload.EventFits(c, s);
    assert HasFile(LiveAt(s, s.nextId), Entry(j.spool, id), true);
    CloseLive(c, s.(events := s.events[1..], played := s.played + [s.events[0]]), s.frame.value);
    AppliesNone(j.spool);
    AppliesTwo(j.spool, RemoveFile(id), Release(id));
  }

  /** What dropping a live frame does. */
  lemma DropIsAllowed(spool: Spool.State, id: UploadId)
    requires id in spool.uploads
    ensures AllAllowed(spool, Dropped(id)) && Entry(Apply(spool, Dropped(id)), id) == None
  {
    AppliesTwo(spool, RemoveFile(id), Release(id));
  }

  lemma TaskCoupled(c: PackUpload.Config, r: nat, j: Joint, id: nat, ok: bool)
    requires InOrder(c, j.upload) && Coupled(r, j) && PackUpload.Enabled(c, j.upload, PackUpload.RunTask(id, ok))
    ensures TouchedCoupled(c, r, j, PackUpload.RunTask(id, ok))
  {
    hide InOrder;
    hide Apply;
    hide AllAllowed;
    hide Dropped;
    assert HasFile(LiveAt(j.upload, id), Entry(j.spool, (r, id)), PackUpload.Going(j.upload));
    AppliesNone(j.spool);
    DropIsAllowed(j.spool, (r, id));
  }

  lemma CollectCoupled(c: PackUpload.Config, r: nat, j: Joint, id: nat)
    requires InOrder(c, j.upload) && Coupled(r, j) && PackUpload.Enabled(c, j.upload, PackUpload.Collect(id))
    ensures TouchedCoupled(c, r, j, PackUpload.Collect(id))
  {
    hide PackUpload.Following;
    hide Apply;
    hide AllAllowed;
    hide Dropped;
    var s, k := j.upload, j.upload.nextId;
    assert HasFile(LiveAt(s, k), Entry(j.spool, (r, k)), PackUpload.Going(s));
    AppliesNone(j.spool);
    if s.mode.Blocked? {
      DropIsAllowed(j.spool, (r, k));
    }
  }

  lemma AnswerCoupled(c: PackUpload.Config, r: nat, j: Joint)
    requires InOrder(c, j.upload) && Coupled(r, j) && PackUpload.Enabled(c, j.upload, PackUpload.Answer)
    ensures TouchedCoupled(c, r, j, PackUpload.Answer)
  {
    hide PackUpload.Following;
    hide Apply;
    hide AllAllowed;
    hide Dropped;
    var s, k := j.upload, j.upload.nextId;
    assert HasFile(LiveAt(s, k), Entry(j.spool, (r, k)), PackUpload.Going(s));
    AppliesNone(j.spool);
    if s.frame.Some? {
      DropIsAllowed(j.spool, (r, k));
    }
  }

  /** The remaining moves do not concern frames. */
  lemma OtherCoupled(c: PackUpload.Config, r: nat, j: Joint, m: PackUpload.Move)
    requires InOrder(c, j.upload) && Coupled(r, j) && PackUpload.Enabled(c, j.upload, m)
    requires m.TakeChunk? || m.EndBody? || m.Elsewhere?
    ensures TouchedCoupled(c, r, j, m)
  {
    hide PackUpload.Following;
    hide PackUpload.Bounded;
    hide Pack.Consume;
    hide Apply;
    hide AllAllowed;
    hide Matches;
    var s, k := j.upload, j.upload.nextId;
    assert HasFile(LiveAt(s, k), Entry(j.spool, (r, k)), PackUpload.Going(s));
    AppliesNone(j.spool);
  }

  lemma TouchedIsCoupled(c: PackUpload.Config, r: nat, j: Joint, m: PackUpload.Move)
    requires InOrder(c, j.upload) && Coupled(r, j) && PackUpload.Enabled(c, j.upload, m)
    ensures TouchedCoupled(c, r, j, m)
  {
    hide TouchedCoupled;
    hide InOrder;
    hide Coupled;
    match m {
      case TakeEvent(ok) =>
        match j.upload.events[0] {
          case Started(_) => StartedCoupled(c, r, j, ok);
          case Payload(_) => PayloadCoupled(c, r, j, ok);
          case Complete => CompleteCoupled(c, r, j, ok);
        }
      case RunTask(id, ok) => TaskCoupled(c, r, j, id, ok);
      case Collect(id) => CollectCoupled(c, r, j, id);
      case Answer => AnswerCoupled(c, r, j);
      case _ => OtherCoupled(c, r, j, m);
    }
  }

  /** Nothing goes well again once it has not. */
  lemma GoingBefore(c: PackUpload.Config, s: PackUpload.State, m: PackUpload.Move)
    requires Pack.ValidCore(c.ReaderLimits(), s.core) && PackUpload.Going(PackUpload.Step(c, s, m))
    ensures PackUpload.Going(s)
  {
    hide Pack.Consume;
    hide Matches;
  }

  /** All a move does to the spool concerns one frame. */
  lemma EmittedLocally(c: PackUpload.Config, r: nat, j: Joint, m: PackUpload.Move)
    requires PackUpload.Enabled(c, j.upload, m)
    ensures var emitted := Emitted(c, r, j, m);
            forall i | 0 <= i < |emitted| :: emitted[i].id == (r, Touched(j.upload, m))
  {
    hide Matches;
  }

  /** A move of the handler is allowed, and keeps frames and files together. */
  lemma MoveIsAllowed(c: PackUpload.Config, r: nat, j: Joint, m: PackUpload.Move)
    requires InOrder(c, j.upload) && Coupled(r, j) && PackUpload.Enabled(c, j.upload, m)
    ensures AllAllowed(j.spool, Emitted(c, r, j, m)) && Coupled(r, JointStep(c, r, j, m))
  {
    TouchedIsCoupled(c, r, j, m);
    EmittedLocally(c, r, j, m);
    var t, touched := JointStep(c, r, j, m), Touched(j.upload, m);
    forall k: nat ensures HasFile(LiveAt(t.upload, k), Entry(t.spool, (r, k)), PackUpload.Going(t.upload)) {
      if k != touched {
        OtherFrameKept(c, r, j, m, k);
      }
    }
  }

  lemma OtherFrameKept(c: PackUpload.Config, r: nat, j: Joint, m: PackUpload.Move, k: nat)
    requires InOrder(c, j.upload) && Coupled(r, j) && PackUpload.Enabled(c, j.upload, m) && k != Touched(j.upload, m)
    ensures var t := JointStep(c, r, j, m);
            HasFile(LiveAt(t.upload, k), Entry(t.spool, (r, k)), PackUpload.Going(t.upload))
  {
    hide PackUpload.Following;
    hide PackUpload.Bounded;
    EmittedLocally(c, r, j, m);
    AppliesLocally(j.spool, Emitted(c, r, j, m), (r, k));
    hide Apply;
    hide Emitted;
    hide LiveAt;
    hide PackUpload.Step;
    hide PackUpload.Going;
    LiveElsewhere(c, j.upload, Effective(j, m), k);
    assert HasFile(LiveAt(j.upload, k), Entry(j.spool, (r, k)), PackUpload.Going(j.upload));
    if PackUpload.Going(PackUpload.Step(c, j.upload, Effective(j, m))) {
      GoingBefore(c, j.upload, Effective(j, m));
    }
  }

  lemma OrderKept(c: PackUpload.Config, s: PackUpload.State, m: PackUpload.Move)
    requires InOrder(c, s)
    ensures InOrder(c, PackUpload.Step(c, s, m))
  {
    hide PackUpload.Following;
    hide PackUpload.Bounded;
    hide Pack.Consume;
    hide Matches;
    PackUpload.StepFollows(c, s, m);
    PackUpload.StepBounded(c, s, m);
  }

  // Whole runs.

  datatype JointMove = Handler(own: PackUpload.Move) | Others(other: Move)

  /** The handler moves, or another request does what it is allowed to. */
  function Joined(c: PackUpload.Config, r: nat, j: Joint, m: JointMove): (t: Joint)
    requires Pack.ValidCore(c.ReaderLimits(), j.upload.core)
    ensures Pack.ValidCore(c.ReaderLimits(), t.upload.core)
  {
    match m
    case Handler(own) => JointStep(c, r, j, own)
    case Others(other) =>
      if other.id.0 != r && Allowed(j.spool, other)
      then j.(spool := Spool.Step(j.spool, other), trace := j.trace + [other]) else j
  }

  function JoinedRun(c: PackUpload.Config, r: nat, start: Joint, moves: seq<JointMove>): (j: Joint)
    requires Pack.ValidCore(c.ReaderLimits(), start.upload.core)
    ensures Pack.ValidCore(c.ReaderLimits(), j.upload.core)
  {
    if moves == [] then start else Joined(c, r, JoinedRun(c, r, start, moves[..|moves| - 1]), moves[|moves| - 1])
  }

  /** The invariant of a pack upload that shares the spool. */
  ghost predicate Shares(c: PackUpload.Config, r: nat, maxBytes: U64, j: Joint) {
    InOrder(c, j.upload) && Coupled(r, j) && Fair(maxBytes, j.spool, j.trace)
  }

  lemma OthersMoveShares(c: PackUpload.Config, r: nat, maxBytes: U64, j: Joint, m: Move)
    requires Shares(c, r, maxBytes, j) && m.id.0 != r && Allowed(j.spool, m)
    ensures Shares(c, r, maxBytes, Joined(c, r, j, Others(m)))
  {
    hide PackUpload.Following;
    hide PackUpload.Bounded;
    hide Fair;
    hide LiveAt;
    hide HasFile;
    FairStep(maxBytes, j.spool, j.trace, m);
    var t := Joined(c, r, j, Others(m));
    forall k: nat ensures HasFile(LiveAt(t.upload, k), Entry(t.spool, (r, k)), PackUpload.Going(t.upload)) {
      assert Entry(t.spool, (r, k)) == Entry(j.spool, (r, k));
    }
  }

  lemma HandlerMoveShares(c: PackUpload.Config, r: nat, maxBytes: U64, j: Joint, m: PackUpload.Move)
    requires Shares(c, r, maxBytes, j)
    ensures Shares(c, r, maxBytes, JointStep(c, r, j, m))
  {
    hide InOrder;
    hide Coupled;
    if PackUpload.Enabled(c, j.upload, m) {
      MoveIsAllowed(c, r, j, m);
      OrderKept(c, j.upload, Effective(j, m));
      ApplyConcat(Spool.Start(maxBytes), j.trace, Emitted(c, r, j, m));
    }
  }

  /** A pack upload about to begin on a spool that others have used fairly. */
  ghost predicate MayBegin(c: PackUpload.Config, r: nat, maxBytes: U64, body: seq<Item>, j: Joint) {
    && (exists objects, rows :: j.upload == PackUpload.AtStart(c, body, objects, rows))
    && (forall k: nat :: (r, k) !in j.spool.uploads)
    && Fair(maxBytes, j.spool, j.trace)
  }

  lemma BeginShares(c: PackUpload.Config, r: nat, maxBytes: U64, body: seq<Item>, j: Joint)
    requires MayBegin(c, r, maxBytes, body, j)
    ensures Shares(c, r, maxBytes, j)
  {
    hide Fair;
    var s := j.upload;
    assert Pack.ReadChunks(c.ReaderLimits(), []) == Pack.Accepted([], Pack.FRESH);
    assert s.played + s.events == [];
  }

  lemma {:induction false} EveryRunShares(
    c: PackUpload.Config, r: nat, maxBytes: U64, body: seq<Item>, start: Joint, moves: seq<JointMove>)
    requires Pack.ValidCore(c.ReaderLimits(), start.upload.core) && MayBegin(c, r, maxBytes, body, start)
    ensures Shares(c, r, maxBytes, JoinedRun(c, r, start, moves))
  {
    if moves == [] {
      BeginShares(c, r, maxBytes, body, start);
    } else {
      var init, last := moves[..|moves| - 1], moves[|moves| - 1];
      EveryRunShares(c, r, maxBytes, body, start, init);
      var j := JoinedRun(c, r, start, init);
      hide Shares;
      hide JointStep;
      hide MayBegin;
      match last {
        case Handler(m) => HandlerMoveShares(c, r, maxBytes, j, m);
        case Others(m) =>
          if m.id.0 != r && Allowed(j.spool, m) {
            OthersMoveShares(c, r, maxBytes, j, m);
          }
      }
    }
  }

  /**
   In every interleaving of a pack upload with anything else that is allowed:
   all the handler does to the spool is allowed, so the bytes of all live uploads
   never exceed what they reserved nor the budget; no frame's payload outgrows
   its reservation; and when the handler has answered it holds nothing.
   */
  lemma PackUploadIsFair(
    c: PackUpload.Config, r: nat, maxBytes: U64, body: seq<Item>, start: Joint, moves: seq<JointMove>)
    requires Pack.ValidCore(c.ReaderLimits(), start.upload.core) && MayBegin(c, r, maxBytes, body, start)
    ensures var j := JoinedRun(c, r, start, moves);
            && Fair(maxBytes, j.spool, j.trace)
            && Spool.Bounded(maxBytes, j.spool)
            && (forall k: nat | PackUpload.Going(j.upload) && LiveAt(j.upload, k).Some? ::
                  && (r, k) in j.spool.uploads
                  && j.spool.uploads[(r, k)].file == Some(|LiveAt(j.upload, k).value.payload|)
                  && |LiveAt(j.upload, k).value.payload| <= LiveAt(j.upload, k).value.digest.size
                  && (maxBytes > 0 ==> LiveAt(j.upload, k).value.digest.size <= KIB * j.spool.uploads[(r, k)].permits))
            && (j.upload.mode.Answered? ==> forall k: nat :: (r, k) !in j.spool.uploads)
  {
    EveryRunShares(c, r, maxBytes, body, start, moves);
    var j := JoinedRun(c, r, start, moves);
    FairIsBounded(maxBytes, j.spool, j.trace);
    StartSound(maxBytes);
    AllowedKeeps(Spool.Start(maxBytes), j.trace);
    hide JoinedRun;
    hide Spool.Bounded;
    hide PackUpload.Following;
    forall k: nat ensures HasFile(LiveAt(j.upload, k), Entry(j.spool, (r, k)), PackUpload.Going(j.upload)) {
    }
  }

  /** The handler's moves of a shared run, with those failing that the spool refused. */
  function OwnMoves(c: PackUpload.Config, r: nat, start: Joint, moves: seq<JointMove>): seq<PackUpload.Move>
    requires Pack.ValidCore(c.ReaderLimits(), start.upload.core)
  {
    if moves == [] then []
    else
      var init, last := moves[..|moves| - 1], moves[|moves| - 1];
      var before := OwnMoves(c, r, start, init);
      if last.Handler? then before + [Effective(JoinedRun(c, r, start, init), last.own)] else before
  }

  /** So every shared run is, for the handler, a run as before: all that holds of those holds here. */
  lemma {:induction false} SharedRunIsARun(c: PackUpload.Config, r: nat, start: Joint, moves: seq<JointMove>)
    requires Pack.ValidCore(c.ReaderLimits(), start.upload.core)
    ensures JoinedRun(c, r, start, moves).upload == PackUpload.Run(c, start.upload, OwnMoves(c, r, start, moves))
  {
    if moves != [] {
      var init, last := moves[..|moves| - 1], moves[|moves| - 1];
      SharedRunIsARun(c, r, start, init);
      hide PackUpload.Step;
      hide Emitted;
      hide Effective;
      if last.Handler? {
        var before := OwnMoves(c, r, start, init);
        assert (before + [Effective(JoinedRun(c, r, start, init), last.own)])[..|before|] == before;
      }
    }
  }

  /** The handler turns to its next event, which may ask the spool for room. */
  predicate Asks(m: JointMove) {
    m.Handler? && m.own.TakeEvent?
  }

  /** Where the spool has room whenever it is asked, it makes no move of the handler fail. */
  lemma {:induction false} RoomKeepsCooperation(c: PackUpload.Config, r: nat, start: Joint, moves: seq<JointMove>)
    requires Pack.ValidCore(c.ReaderLimits(), start.upload.core)
    requires forall i | 0 <= i < |moves| && moves[i].Handler? :: PackAcceptance.Cooperates(moves[i].own)
    requires forall n | 0 <= n < |moves| && Asks(moves[n]) :: !SpoolRefuses(JoinedRun(c, r, start, moves[..n]))
    ensures var own := OwnMoves(c, r, start, moves); forall i | 0 <= i < |own| :: PackAcceptance.Cooperates(own[i])
  {
    hide JoinedRun;
    if moves != [] {
      var init := moves[..|moves| - 1];
      forall n | 0 <= n < |init| && Asks(init[n]) ensures !SpoolRefuses(JoinedRun(c, r, start, init[..n])) {
        assert init[..n] == moves[..n] && Asks(moves[n]);
      }
      RoomKeepsCooperation(c, r, start, init);
      var last := moves[|moves| - 1];
      assert Asks(last) ==> !SpoolRefuses(JoinedRun(c, r, start, moves[..|moves| - 1]));
      if last.Handler? {
        assert Effective(JoinedRun(c, r, start, init), last.own) == last.own;
        assert OwnMoves(c, r, start, moves) == OwnMoves(c, r, start, init) + [last.own];
      } else {
        assert OwnMoves(c, r, start, moves) == OwnMoves(c, r, start, init);
      }
    }
  }

  /** A good pack is declined only if the spool refused one of its frames at the moment it was asked. */
  lemma GoodPackIsAcceptedWithRoom(
    c: PackUpload.Config, r: nat, chunks: seq<Bytes>, frames: seq<Frame>, objects: map<Digest, Bytes>, rows: set<Digest>,
    spool: Spool.State, moves: seq<JointMove>)
    requires PackAcceptance.GoodPack(c, chunks, frames) && PackUpload.VerifiedStore(c, objects)
    requires forall i | 0 <= i < |moves| && moves[i].Handler? :: PackAcceptance.Cooperates(moves[i].own)
    ensures var start := Joint(PackUpload.AtStart(c, PackUpload.Chunks(chunks), objects, rows), spool, []);
            PackAcceptance.Smooth(JoinedRun(c, r, start, moves).upload)
            || exists n :: 0 <= n < |moves| && Asks(moves[n]) && SpoolRefuses(JoinedRun(c, r, start, moves[..n]))
  {
    hide JoinedRun;
    hide PackAcceptance.GoodPack;
    hide PackAcceptance.Smooth;
    hide PackUpload.AtStart;
    hide PackUpload.Run;
    assert Pack.ValidCore(c.ReaderLimits(), PackUpload.AtStart(c, PackUpload.Chunks(chunks), objects, rows).core) by {
      StartIsValid(c, PackUpload.Chunks(chunks), objects, rows);
    }
    var start := Joint(PackUpload.AtStart(c, PackUpload.Chunks(chunks), objects, rows), spool, []);
    if forall n | 0 <= n < |moves| && Asks(moves[n]) :: !SpoolRefuses(JoinedRun(c, r, start, moves[..n])) {
      RoomKeepsCooperation(c, r, start, moves);
      SharedRunIsARun(c, r, start, moves);
      PackAcceptance.GoodPackIsAccepted(c, chunks, frames, objects, rows, OwnMoves(c, r, start, moves));
    }
  }

  lemma StartIsValid(c: PackUpload.Config, body: seq<Item>, objects: map<Digest, Bytes>, rows: set<Digest>)
    ensures Pack.ValidCore(c.ReaderLimits(), PackUpload.AtStart(c, body, objects, rows).core)
  {
  }

  // All requests at once.

  /** A pack upload, or a single upload with its writes and how many of its moves are done. */
  datatype Request =
    | PackRequest(config: PackUpload.Config, upload: PackUpload.State)
    | BlobRequest(declared: U64, writes: seq<nat>, done: nat)

  /** Every request there has been, and the spool they share. */
  datatype System = System(spool: Spool.State, trace: seq<Move>, requests: map<nat, Request>)

  datatype SystemMove =
    | Open(r: nat, request: Request)
    | PackMove(r: nat, own: PackUpload.Move)
    | BlobMove(r: nat)

  /** A request that has done nothing yet. */
  ghost predicate IsNew(request: Request) {
    match request
    case PackRequest(c, upload) => exists body, objects, rows :: upload == PackUpload.AtStart(c, body, objects, rows)
    case BlobRequest(declared, writes, done) => done == 0 && Total(writes) <= declared
  }

  function JointOf(y: System, upload: PackUpload.State): Joint {
    Joint(upload, y.spool, y.trace)
  }

  ghost function SystemStep(y: System, m: SystemMove): System {
    match m
    case Open(r, request) => if r !in y.requests && IsNew(request) then y.(requests := y.requests[r := request]) else y
    case PackMove(r, own) =>
      if r in y.requests && y.requests[r].PackRequest?
         && Pack.ValidCore(y.requests[r].config.ReaderLimits(), y.requests[r].upload.core) then
        var c := y.requests[r].config;
        var j := JointStep(c, r, JointOf(y, y.requests[r].upload), own);
        System(j.spool, j.trace, y.requests[r := PackRequest(c, j.upload)])
      else y
    case BlobMove(r) =>
      if r in y.requests && y.requests[r].BlobRequest? then
        var q := y.requests[r];
        var s := Take((r, 0), q.declared, q.writes, Single(y.spool, q.done, y.trace), Mine);
        System(s.spool, s.trace, y.requests[r := q.(done := s.done)])
      else y
  }

  ghost function SystemRun(maxBytes: U64, moves: seq<SystemMove>): System {
    if moves == [] then System(Spool.Start(maxBytes), [], map[])
    else SystemStep(SystemRun(maxBytes, moves[..|moves| - 1]), moves[|moves| - 1])
  }

  /** What is true of a request and its part of the spool. */
  ghost predicate RequestHolds(spool: Spool.State, r: nat, request: Request) {
    match request
    case PackRequest(c, upload) => InOrder(c, upload) && Coupled(r, Joint(upload, spool, []))
    case BlobRequest(declared, writes, done) =>
      && Total(writes) <= declared
      && At(spool, (r, 0), declared, writes, done)
      && forall k: nat | k > 0 :: Entry(spool, (r, k)).None?
  }

  ghost predicate SystemHolds(maxBytes: U64, y: System) {
    && Fair(maxBytes, y.spool, y.trace)
    && (forall r | r in y.requests :: RequestHolds(y.spool, r, y.requests[r]))
    && (forall id | id in y.spool.uploads :: id.0 in y.requests)
  }

  /** A request does not care what happens to the rest of the spool. */
  lemma OwnPartIsEnough(a: Spool.State, b: Spool.State, r: nat, request: Request)
    requires RequestHolds(a, r, request)
    requires forall k: nat :: Entry(a, (r, k)) == Entry(b, (r, k))
    ensures RequestHolds(b, r, request)
  {
    hide InOrder;
    hide HasFile;
    hide LiveAt;
    match request {
      case PackRequest(c, upload) =>
        forall k: nat ensures HasFile(LiveAt(upload, k), Entry(b, (r, k)), PackUpload.Going(upload)) {
          assert HasFile(LiveAt(upload, k), Entry(a, (r, k)), PackUpload.Going(upload));
        }
      case BlobRequest(declared, writes, done) =>
        assert Entry(a, (r, 0)) == Entry(b, (r, 0));
    }
  }

  /** A request's moves, and what they leave of everyone else's part. */
  ghost predicate OnlyOwn(a: Spool.State, b: Spool.State, r: nat) {
    forall other, k: nat | other != r :: Entry(a, (other, k)) == Entry(b, (other, k))
  }

  lemma PackMoveHolds(maxBytes: U64, y: System, r: nat, own: PackUpload.Move)
    requires Fair(maxBytes, y.spool, y.trace) && r in y.requests && RequestHolds(y.spool, r, y.requests[r])
    requires y.requests[r].PackRequest?
    ensures var z := SystemStep(y, PackMove(r, own));
            && Fair(maxBytes, z.spool, z.trace) && RequestHolds(z.spool, r, z.requests[r])
            && OnlyOwn(y.spool, z.spool, r) && z.requests.Keys == y.requests.Keys
            && forall other | other in y.requests && other != r :: z.requests[other] == y.requests[other]
  {
    var c, j := y.requests[r].config, JointOf(y, y.requests[r].upload);
    assert Coupled(r, j) by { SameCoupling(r, Joint(j.upload, j.spool, []), j); }
    HandlerMoveShares(c, r, maxBytes, j, own);
    PackMoveIsLocal(c, r, j, own);
    hide InOrder;
    hide Fair;
    hide JointStep;
    var t := JointStep(c, r, j, own);
    SameCoupling(r, t, Joint(t.upload, t.spool, []));
  }

  lemma SameCoupling(r: nat, a: Joint, b: Joint)
    requires Coupled(r, a) && a.upload == b.upload && a.spool == b.spool
    ensures Coupled(r, b)
  {
    hide HasFile;
    hide LiveAt;
    forall k: nat ensures HasFile(LiveAt(b.upload, k), Entry(b.spool, (r, k)), PackUpload.Going(b.upload)) {
      assert HasFile(LiveAt(a.upload, k), Entry(a.spool, (r, k)), PackUpload.Going(a.upload));
    }
  }

  lemma PackMoveIsLocal(c: PackUpload.Config, r: nat, j: Joint, own: PackUpload.Move)
    requires Pack.ValidCore(c.ReaderLimits(), j.upload.core)
    ensures OnlyOwn(j.spool, JointStep(c, r, j, own).spool, r)
  {
    hide Apply;
    hide PackUpload.Step;
    if PackUpload.Enabled(c, j.upload, own) {
      EmittedLocally(c, r, j, own);
      hide Emitted;
      forall other, k: nat | other != r
        ensures Entry(j.spool, (other, k)) == Entry(JointStep(c, r, j, own).spool, (other, k))
      {
        AppliesLocally(j.spool, Emitted(c, r, j, own), (other, k));
      }
    }
  }

  lemma BlobMoveHolds(maxBytes: U64, y: System, r: nat)
    requires Fair(maxBytes, y.spool, y.trace) && r in y.requests && RequestHolds(y.spool, r, y.requests[r])
    requires y.requests[r].BlobRequest?
    ensures var z := SystemStep(y, BlobMove(r));
            && Fair(maxBytes, z.spool, z.trace) && RequestHolds(z.spool, r, z.requests[r])
            && OnlyOwn(y.spool, z.spool, r) && z.requests.Keys == y.requests.Keys
            && forall other | other in y.requests && other != r :: z.requests[other] == y.requests[other]
  {
    hide Fair;
    hide At;
    hide Allowed;
    hide Plan;
    hide Admit;
    hide Spool.Step;
    hide Total;
    var q := y.requests[r];
    var before := Single(y.spool, q.done, y.trace);
    if Take((r, 0), q.declared, q.writes, before, Mine) != before {
      var m := Plan((r, 0), q.declared, q.writes, q.done);
      NextIsAllowed(y.spool, (r, 0), q.declared, q.writes, q.done);
      FairStep(maxBytes, y.spool, y.trace, m);
      PlanIsOwn((r, 0), q.declared, q.writes, q.done);
      forall id: UploadId | id != (r, 0) ensures Entry(Spool.Step(y.spool, m), id) == Entry(y.spool, id) {
        StepIsLocal(y.spool, m, id);
      }
    }
  }

  lemma PlanIsOwn(id: UploadId, declared: U64, writes: seq<nat>, n: nat)
    requires n < |writes| + 4
    ensures Plan(id, declared, writes, n).id == id
  {
  }

  lemma StepIsLocal(s: Spool.State, m: Move, id: UploadId)
    requires m.id != id
    ensures Entry(Spool.Step(s, m), id) == Entry(s, id)
  {
  }

  /** A new request has nothing in the spool. */
  lemma NewHolds(spool: Spool.State, r: nat, request: Request)
    requires IsNew(request) && forall k: nat :: (r, k) !in spool.uploads
    ensures RequestHolds(spool, r, request)
  {
    hide Total;
    match request {
      case PackRequest(c, upload) =>
        assert Pack.ReadChunks(c.ReaderLimits(), []) == Pack.Accepted([], Pack.FRESH);
        assert upload.played + upload.events == [];
      case BlobRequest(_, _, _) =>
    }
  }

  /** The part of a move that all kinds have in common: one request moves, the others keep theirs. */
  lemma OthersHold(maxBytes: U64, y: System, z: System, r: nat)
    requires SystemHolds(maxBytes, y) && Fair(maxBytes, z.spool, z.trace)
    requires r in z.requests && RequestHolds(z.spool, r, z.requests[r]) && OnlyOwn(y.spool, z.spool, r)
    requires z.requests.Keys == y.requests.Keys + {r}
    requires forall other | other in y.requests && other != r :: z.requests[other] == y.requests[other]
    ensures SystemHolds(maxBytes, z)
  {
    hide Fair;
    hide RequestHolds;
    forall other | other in z.requests ensures RequestHolds(z.spool, other, z.requests[other]) {
      if other != r {
        assert RequestHolds(y.spool, other, y.requests[other]);
        OwnPartIsEnough(y.spool, z.spool, other, y.requests[other]);
      }
    }
    forall id | id in z.spool.uploads ensures id.0 in z.requests {
      if id.0 != r {
        assert Entry(y.spool, (id.0, id.1)) == Entry(z.spool, (id.0, id.1));
      }
    }
  }

  lemma SystemStepHolds(maxBytes: U64, y: System, m: SystemMove)
    requires SystemHolds(maxBytes, y)
    ensures SystemHolds(maxBytes, SystemStep(y, m))
  {
    hide Fair;
    hide RequestHolds;
    hide JointStep;
    hide Take;
    hide IsNew;
    var z := SystemStep(y, m);
    if z != y {
      match m {
        case Open(r, request) => NewHolds(y.spool, r, request);
        case PackMove(r, own) => PackMoveHolds(maxBytes, y, r, own);
        case BlobMove(r) => BlobMoveHolds(maxBytes, y, r);
      }
      assert z.requests.Keys == y.requests.Keys + {m.r};
      OthersHold(maxBytes, y, z, m.r);
    }
  }

  lemma {:induction false} EverySystemRunHolds(maxBytes: U64, moves: seq<SystemMove>)
    ensures SystemHolds(maxBytes, SystemRun(maxBytes, moves))
  {
    if moves != [] {
      EverySystemRunHolds(maxBytes, moves[..|moves| - 1]);
      SystemStepHolds(maxBytes, SystemRun(maxBytes, moves[..|moves| - 1]), moves[|moves| - 1]);
    }
  }

  /** A request that has ended, or was refused before it began. */
  predicate IsOver(request: Request) {
    match request
    case PackRequest(_, upload) => upload.mode.Answered?
    case BlobRequest(_, writes, done) => done == 0 || done >= |writes| + 4
  }

  lemma OverHoldsNothing(spool: Spool.State, r: nat, request: Request, k: nat)
    requires RequestHolds(spool, r, request) && IsOver(request)
    ensures (r, k) !in spool.uploads
  {
    hide PackUpload.Following;
    if request.PackRequest? {
      assert HasFile(LiveAt(request.upload, k), Entry(spool, (r, k)), PackUpload.Going(request.upload));
    } else {
      assert k > 0 ==> Entry(spool, (r, k)).None?;
    }
  }

  /**
   Any number of pack and single uploads at once on one spool, in every
   interleaving: the bytes on disk never exceed what is reserved nor the budget,
   permits are conserved, and when every request is over all permits are back and
   nothing is left on disk.
   */
  lemma SharedSpoolIsBounded(maxBytes: U64, moves: seq<SystemMove>)
    ensures var y := SystemRun(maxBytes, moves);
            && Spool.Bounded(maxBytes, y.spool)
            && ((forall r | r in y.requests :: IsOver(y.requests[r])) ==>
                  y.spool.uploads == map[] && y.spool.free == TotalPermits(maxBytes))
  {
    EverySystemRunHolds(maxBytes, moves);
    hide SystemRun;
    var y := SystemRun(maxBytes, moves);
    FairIsBounded(maxBytes, y.spool, y.trace);
    hide RequestHolds;
    hide IsOver;
    if forall r | r in y.requests :: IsOver(y.requests[r]) {
      forall id | id in y.spool.uploads ensures false {
        OverHoldsNothing(y.spool, id.0, y.requests[id.0], id.1);
      }
    }
  }
}
