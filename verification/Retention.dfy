/**
 Objects expire by a lifecycle rule of the storage, rows by a sweep. The rule
 by which a row's age follows its object's keeps a sweep from dropping the row
 of an object that is not yet due, unless the upload that wrote the object was
 another namespace's or never registered it.
 */
module Retention {
  import opened Encoding
  import opened Digests
  import opened Clock
  import opened Postgres

  /** How old an object gets before the lifecycle may delete it, and a row before a sweep does. */
  datatype Policy = Policy(lifecycle: nat, sweepAge: nat)

  /** An upload: its content verified, its put answered, and then registered; or given up before or after its put. */
  datatype Stage =
    | Verified
    | Stored(outcome: PutOutcome)
    | Registered(outcome: PutOutcome)
    | GivenUp(put: Option<PutOutcome>)

  datatype Upload = Upload(ns: Namespace, digest: Digest, stage: Stage)

  /** A live object: when it was written, and by which upload. */
  datatype Object = Object(at: Time, writer: nat)

  datatype State = State(now: Time, objects: map<Digest, Object>, blobs: map<RowKey, BlobRow>, uploads: map<nat, Upload>)

  datatype Move =
    | Tick
    | Start(id: nat, ns: Namespace, digest: Digest)
    | GiveUp(id: nat)
    | PutObject(id: nat)
    | Register(id: nat)
    | Expire(digest: Digest)
    | Sweep

  const EMPTY := State(0, map[], map[], map[])

  predicate IsDue(policy: Policy, s: State, d: Digest)
    requires d in s.objects
  {
    s.objects[d].at + policy.lifecycle <= s.now
  }

  function SetStage(s: State, id: nat, stage: Stage): State
    requires id in s.uploads
  {
    s.(uploads := s.uploads[id := s.uploads[id].(stage := stage)])
  }

  function Do(policy: Policy, s: State, m: Move): State {
    match m
    case Tick => s.(now := s.now + 1)
    case Start(id, ns, d) =>
      if id in s.uploads || !ValidDigest(d) then s else s.(uploads := s.uploads[id := Upload(ns, d, Verified)])
    case GiveUp(id) =>
      if id !in s.uploads then s
      else (
        match s.uploads[id].stage
        case Verified => SetStage(s, id, GivenUp(None))
        case Stored(outcome) => SetStage(s, id, GivenUp(Some(outcome)))
        case _ => s)
    case PutObject(id) =>
      if id in s.uploads && s.uploads[id].stage.Verified? then
        var d := s.uploads[id].digest;
        if d in s.objects then SetStage(s, id, Stored(AlreadyExists))
        else SetStage(s, id, Stored(Created)).(objects := s.objects[d := Object(s.now, id)])
      else s
    case Register(id) =>
      if id in s.uploads && s.uploads[id].stage.Stored? then
        var u := s.uploads[id];
        if !Permitted(KeyOf(u.ns, u.digest)) then SetStage(s, id, GivenUp(Some(u.stage.outcome)))
        else
          SetStage(s, id, Registered(u.stage.outcome)).(
            blobs := Upsert(s.blobs, s.now, KeyOf(u.ns, u.digest), u.stage.outcome))
      else s
    case Expire(d) => if d in s.objects && IsDue(policy, s, d) then s.(objects := s.objects - {d}) else s
    case Sweep => s.(blobs := SweepBlobs(s.blobs, s.now, policy.sweepAge))
  }

  function Run(policy: Policy, moves: seq<Move>): State {
    if moves == [] then EMPTY else Do(policy, Run(policy, moves[..|moves| - 1]), moves[|moves| - 1])
  }

  // Rows follow the uploads that wrote their objects.

  /** The upload that wrote the object has registered it in this namespace. */
  predicate RegisteredByWriter(s: State, ns: Namespace, d: Digest) {
    && d in s.objects && s.objects[d].writer in s.uploads
    && var writer := s.uploads[s.objects[d].writer];
       writer.ns == ns && writer.stage == Registered(Created)
  }

  predicate HasWritten(stage: Stage) {
    stage == Stored(Created) || stage == Registered(Created) || stage == GivenUp(Some(Created))
  }

  /** The upload that wrote `d` is known, and wrote it. */
  predicate Written(s: State, d: Digest)
    requires d in s.objects
  {
    && s.objects[d].at <= s.now
    && s.objects[d].writer in s.uploads
    && s.uploads[s.objects[d].writer].digest == d
    && HasWritten(s.uploads[s.objects[d].writer].stage)
  }

  ghost predicate Invariant(s: State) {
    && (forall d | d in s.objects :: Written(s, d))
    && (forall ns, d: Digest | d in s.objects && KeyOf(ns, d) in s.blobs && RegisteredByWriter(s, ns, d) ::
          s.objects[d].at <= s.blobs[KeyOf(ns, d)].createdAt)
  }

  /** Registering moves one row, to now when its upload wrote the object. */
  lemma RegisterKeeps(policy: Policy, s: State, id: nat)
    requires Invariant(s) && id in s.uploads && s.uploads[id].stage.Stored?
    ensures Invariant(Do(policy, s, Register(id)))
  {
    var t, u := Do(policy, s, Register(id)), s.uploads[id];
    forall ns, d: Digest | d in t.objects && KeyOf(ns, d) in t.blobs && RegisteredByWriter(t, ns, d)
      ensures t.objects[d].at <= t.blobs[KeyOf(ns, d)].createdAt
    {
      assert Written(s, d);
      if KeyOf(ns, d) == KeyOf(u.ns, u.digest) {
        KeysAreDistinct(ns, d, u.ns, u.digest);
      }
    }
    forall d | d in t.objects ensures Written(t, d) {
      assert Written(s, d);
    }
  }

  lemma PutKeeps(policy: Policy, s: State, id: nat)
    requires Invariant(s) && id in s.uploads && s.uploads[id].stage.Verified?
    ensures Invariant(Do(policy, s, PutObject(id)))
  {
    var t := Do(policy, s, PutObject(id));
    forall d | d in t.objects ensures Written(t, d) {
      if d in s.objects {
        assert Written(s, d);
      }
    }
    forall ns, d: Digest | d in t.objects && KeyOf(ns, d) in t.blobs && RegisteredByWriter(t, ns, d)
      ensures t.objects[d].at <= t.blobs[KeyOf(ns, d)].createdAt
    {
      assert RegisteredByWriter(s, ns, d);
    }
  }

  lemma OtherKeeps(policy: Policy, s: State, m: Move)
    requires Invariant(s) && !m.Register? && !m.PutObject?
    ensures Invariant(Do(policy, s, m))
  {
    var t := Do(policy, s, m);
    forall d | d in t.objects ensures Written(t, d) {
      assert Written(s, d);
    }
    forall ns, d: Digest | d in t.objects && KeyOf(ns, d) in t.blobs && RegisteredByWriter(t, ns, d)
      ensures t.objects[d].at <= t.blobs[KeyOf(ns, d)].createdAt
    {
      assert Written(s, d);
      assert RegisteredByWriter(s, ns, d);
    }
  }

  lemma DoKeeps(policy: Policy, s: State, m: Move)
    requires Invariant(s)
    ensures Invariant(Do(policy, s, m))
  {
    hide Invariant;
    match m {
      case Register(id) => if id in s.uploads && s.uploads[id].stage.Stored? { RegisterKeeps(policy, s, id); }
      case PutObject(id) => if id in s.uploads && s.uploads[id].stage.Verified? { PutKeeps(policy, s, id); }
      case _ => OtherKeeps(policy, s, m);
    }
  }

  lemma {:induction false} EveryRun(policy: Policy, moves: seq<Move>)
    ensures Invariant(Run(policy, moves))
  {
    if moves != [] {
      EveryRun(policy, moves[..|moves| - 1]);
      DoKeeps(policy, Run(policy, moves[..|moves| - 1]), moves[|moves| - 1]);
    }
  }

  /** A sweep now would drop the row of a live object that is not yet due. */
  predicate SweptTooEarly(policy: Policy, s: State, ns: Namespace, d: Digest) {
    && d in s.objects && !IsDue(policy, s, d)
    && KeyOf(ns, d) in s.blobs && KeyOf(ns, d) !in Do(policy, s, Sweep).blobs
  }

  /**
   After any run, of any namespaces and with uploads stopping anywhere: a row is
   never older than its object when the upload that wrote the object registered
   it in the row's namespace. So with a lifecycle that runs out no later than
   the first sweep can, a sweep drops the row of an object that is not due only
   if its writer was another namespace's or has not registered it.
   */
  lemma SweepsFollowTheLifecycle(policy: Policy, moves: seq<Move>, ns: Namespace, d: Digest)
    ensures var s := Run(policy, moves);
            && (d in s.objects && KeyOf(ns, d) in s.blobs && RegisteredByWriter(s, ns, d) ==>
                  s.objects[d].at <= s.blobs[KeyOf(ns, d)].createdAt)
            && (policy.lifecycle <= policy.sweepAge + 1 && SweptTooEarly(policy, s, ns, d) ==>
                  !RegisteredByWriter(s, ns, d))
  {
    EveryRun(policy, moves);
  }

  // What each assumption is worth.

  /** All uploads are one namespace's. */
  predicate OneNamespace(moves: seq<Move>, ns: Namespace) {
    forall i | 0 <= i < |moves| && moves[i].Start? :: moves[i].ns == ns
  }

  /** Every upload that wrote an object has registered it. */
  predicate WritersRegistered(s: State) {
    forall id | id in s.uploads :: s.uploads[id].stage != Stored(Created) && s.uploads[id].stage != GivenUp(Some(Created))
  }

  lemma {:induction false} OneNamespaceRuns(policy: Policy, moves: seq<Move>, ns: Namespace)
    requires OneNamespace(moves, ns)
    ensures forall id | id in Run(policy, moves).uploads :: Run(policy, moves).uploads[id].ns == ns
  {
    if moves != [] {
      OneNamespaceRuns(policy, moves[..|moves| - 1], ns);
    }
  }

  /** Under this policy no run in one namespace that leaves no object its writer has not registered is ever swept too early. */
  ghost predicate SafeWithBoth(policy: Policy) {
    forall moves, ns, d: Digest | OneNamespace(moves, ns) && WritersRegistered(Run(policy, moves)) ::
      !SweptTooEarly(policy, Run(policy, moves), ns, d)
  }

  /** The same for any number of namespaces. */
  ghost predicate SafeAcrossNamespaces(policy: Policy) {
    forall moves, ns, d: Digest | WritersRegistered(Run(policy, moves)) ::
      !SweptTooEarly(policy, Run(policy, moves), ns, d)
  }

  /** The same for uploads that may stop before they register. */
  ghost predicate SafeUnregistered(policy: Policy) {
    forall moves, ns, d: Digest | OneNamespace(moves, ns) :: !SweptTooEarly(policy, Run(policy, moves), ns, d)
  }

  function Ticks(n: nat): seq<Move> {
    if n == 0 then [] else Ticks(n - 1) + [Tick]
  }

  lemma {:induction false} TicksRun(policy: Policy, moves: seq<Move>, n: nat)
    ensures var s := Run(policy, moves); Run(policy, moves + Ticks(n)) == s.(now := s.now + n)
    ensures forall i | 0 <= i < |Ticks(n)| :: Ticks(n)[i] == Tick
  {
    if n == 0 {
      assert moves + [] == moves;
    } else {
      TicksRun(policy, moves, n - 1);
      assert moves + Ticks(n) == moves + Ticks(n - 1) + [Tick];
      RunSnoc(policy, moves + Ticks(n - 1), Tick);
    }
  }

  lemma RunSnoc(policy: Policy, moves: seq<Move>, m: Move)
    ensures Run(policy, moves + [m]) == Do(policy, Run(policy, moves), m)
  {
    assert (moves + [m])[..|moves|] == moves;
  }

  function Zeros(n: nat): (text: string)
    ensures |text| == n && forall i | 0 <= i < n :: text[i] == '0'
  {
    if n == 0 then "" else Zeros(n - 1) + "0"
  }

  /** A digest the server takes. */
  const SAMPLE := Digest("blake3", Zeros(64), 0)

  function FirstUpload(ns: Namespace): seq<Move> {
    [Start(0, ns, SAMPLE)] + [PutObject(0)] + [Register(0)]
  }

  lemma StartRuns(policy: Policy, ns: Namespace)
    ensures ValidDigest(SAMPLE)
    ensures Run(policy, [Start(0, ns, SAMPLE)]) == State(0, map[], map[], map[0 := Upload(ns, SAMPLE, Verified)])
  {
    RunSnoc(policy, [], Start(0, ns, SAMPLE));
    assert [] + [Start(0, ns, SAMPLE)] == [Start(0, ns, SAMPLE)];
  }

  lemma FirstUploadRuns(policy: Policy, ns: Namespace)
    ensures Run(policy, FirstUpload(ns)) ==
            State(0, map[SAMPLE := Object(0, 0)], map[KeyOf(ns, SAMPLE) := BlobRow(0, 0)],
                  map[0 := Upload(ns, SAMPLE, Registered(Created))])
  {
    hide Run;
    hide ValidDigest;
    StartRuns(policy, ns);
    var m := [Start(0, ns, SAMPLE)];
    RunSnoc(policy, m, PutObject(0));
    assert Run(policy, m + [PutObject(0)]) ==
      State(0, map[SAMPLE := Object(0, 0)], map[], map[0 := Upload(ns, SAMPLE, Stored(Created))]);
    RunSnoc(policy, m + [PutObject(0)], Register(0));
  }

  /** One upload at time 0, registered, and then some time. */
  function UploadedBefore(ns: Namespace, time: nat): seq<Move> {
    FirstUpload(ns) + Ticks(time)
  }

  lemma UploadedBeforeRuns(policy: Policy, ns: Namespace, time: nat)
    ensures ValidDigest(SAMPLE)
    ensures Run(policy, UploadedBefore(ns, time)) ==
            State(time, map[SAMPLE := Object(0, 0)], map[KeyOf(ns, SAMPLE) := BlobRow(0, 0)],
                  map[0 := Upload(ns, SAMPLE, Registered(Created))])
    ensures OneNamespace(UploadedBefore(ns, time), ns)
  {
    hide Run;
    hide ValidDigest;
    StartRuns(policy, ns);
    FirstUploadRuns(policy, ns);
    TicksRun(policy, FirstUpload(ns), time);
  }

  /** The first instant at which both the object of time 0 is due and a sweep drops its row. */
  function Later(policy: Policy): nat {
    if policy.lifecycle <= policy.sweepAge then policy.sweepAge + 1 else policy.lifecycle
  }

  /** After that the object expires and an upload of `ns` writes it again; `more` is what that upload does next. */
  function Rewritten(policy: Policy, first: Namespace, ns: Namespace): seq<Move> {
    UploadedBefore(first, Later(policy)) + [Expire(SAMPLE)] + [Start(1, ns, SAMPLE)] + [PutObject(1)]
  }

  lemma RewrittenRuns(policy: Policy, first: Namespace, ns: Namespace)
    ensures Run(policy, Rewritten(policy, first, ns)) ==
            State(Later(policy), map[SAMPLE := Object(Later(policy), 1)], map[KeyOf(first, SAMPLE) := BlobRow(0, 0)],
                  map[0 := Upload(first, SAMPLE, Registered(Created)), 1 := Upload(ns, SAMPLE, Stored(Created))])
    ensures first == ns ==> OneNamespace(Rewritten(policy, first, ns), ns)
  {
    hide UploadedBefore;
    hide Run;
    hide ValidDigest;
    var m := UploadedBefore(first, Later(policy));
    UploadedBeforeRuns(policy, first, Later(policy));
    RunSnoc(policy, m, Expire(SAMPLE));
    assert Run(policy, m + [Expire(SAMPLE)]).objects == map[];
    RunSnoc(policy, m + [Expire(SAMPLE)], Start(1, ns, SAMPLE));
    RunSnoc(policy, m + [Expire(SAMPLE)] + [Start(1, ns, SAMPLE)], PutObject(1));
  }

  /** Between a put and its registration a sweep may drop the row of an object just written. */
  lemma UnregisteredPutLosesItsRow(policy: Policy, ns: Namespace)
    requires policy.lifecycle > 0
    ensures var moves := Rewritten(policy, ns, ns);
            OneNamespace(moves, ns) && SweptTooEarly(policy, Run(policy, moves), ns, SAMPLE)
  {
    RewrittenRuns(policy, ns, ns);
  }

  /** Another namespace's upload renews the object and leaves this row its age. */
  lemma OtherNamespaceLosesItsRow(policy: Policy, ns: Namespace, other: Namespace)
    requires policy.lifecycle > 0 && ns != other
    ensures var s := Run(policy, Rewritten(policy, ns, other) + [Register(1)]);
            WritersRegistered(s) && SweptTooEarly(policy, s, ns, SAMPLE)
  {
    RewrittenRuns(policy, ns, other);
    hide Rewritten;
    RunSnoc(policy, Rewritten(policy, ns, other), Register(1));
  }

  /** A row older than a sweep keeps, of an object younger than the lifecycle takes. */
  lemma EarlySweepLosesRow(policy: Policy, ns: Namespace)
    requires policy.lifecycle > policy.sweepAge + 1
    ensures var moves := UploadedBefore(ns, policy.sweepAge + 1);
            && OneNamespace(moves, ns) && WritersRegistered(Run(policy, moves))
            && SweptTooEarly(policy, Run(policy, moves), ns, SAMPLE)
  {
    UploadedBeforeRuns(policy, ns, policy.sweepAge + 1);
  }

  /** With both assumptions, the order the configuration asks for, storage first and metadata after, is exactly what it takes. */
  lemma SafePoliciesExactly(policy: Policy)
    ensures SafeWithBoth(policy) <==> policy.lifecycle <= policy.sweepAge + 1
  {
    if policy.lifecycle <= policy.sweepAge + 1 {
      forall moves, ns, d: Digest | OneNamespace(moves, ns) && WritersRegistered(Run(policy, moves))
        ensures !SweptTooEarly(policy, Run(policy, moves), ns, d)
      {
        SweepsFollowTheLifecycle(policy, moves, ns, d);
        EveryRun(policy, moves);
        OneNamespaceRuns(policy, moves, ns);
        if d in Run(policy, moves).objects {
          assert Written(Run(policy, moves), d);
        }
      }
    } else {
      EarlySweepLosesRow(policy, "ns");
    }
  }

  /** Without either assumption, only a policy under which every object is due at once is safe. */
  lemma AssumptionsAreNeeded(policy: Policy)
    ensures SafeAcrossNamespaces(policy) <==> policy.lifecycle == 0
    ensures SafeUnregistered(policy) <==> policy.lifecycle == 0
  {
    if policy.lifecycle == 0 {
      forall moves, ns, d: Digest ensures !SweptTooEarly(policy, Run(policy, moves), ns, d) {
        EveryRun(policy, moves);
        if d in Run(policy, moves).objects {
          assert Written(Run(policy, moves), d);
        }
      }
    } else {
      UnregisteredPutLosesItsRow(policy, "ns");
      OtherNamespaceLosesItsRow(policy, "ns", "other");
    }
  }
}
