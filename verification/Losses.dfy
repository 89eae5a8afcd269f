/**
 The same server on storage that loses objects, by expiry or by hand. A reader
 that finds a listed object gone drops the row, and nothing else ever does.
 */
module Losses {
  import opened Encoding
  import opened Digests
  import Memory
  import opened Publish

  datatype LossyMove = Normal(m: Move) | Lose(digest: Digest)

  ghost function DoLossy(schema: Schema, s: Server, m: LossyMove): Server {
    match m
    case Normal(move) => Do(schema, s, move)
    case Lose(d) => s.(shared := s.shared.(objects := s.shared.objects - {d}))
  }

  ghost function From(schema: Schema, s: Server, moves: seq<LossyMove>): Server {
    if moves == [] then s else DoLossy(schema, From(schema, s, moves[..|moves| - 1]), moves[|moves| - 1])
  }

  ghost function Lossy(schema: Schema, moves: seq<LossyMove>): Server {
    From(schema, EMPTY, moves)
  }

  // When a row is dropped.

  /** The object a process asks storage for next, with the namespace whose row says it is there. */
  predicate AsksFor(p: Proc, ns: Namespace, d: Digest) {
    match p
    case DownloadGet(n, e) => n == ns && e == d
    case Publishing(n, action, r, stage) =>
      && n == ns
      && (match stage
          case ActionGet => d == action
          case MetadataGet(_) => r.metadata == Some(d)
          case NodeGet(_, s) => s.pending != [] && s.pending[|s.pending| - 1].digest == d
          case _ => false)
    case _ => false
  }

  /** At move `n` of the run process `id` asked for the object, and it was not there. */
  ghost predicate MissedAt(schema: Schema, moves: seq<LossyMove>, n: nat, id: nat, ns: Namespace, d: Digest) {
    && n < |moves| && moves[n] == Normal(Run(id))
    && var s := Lossy(schema, moves[..n]);
       id in s.procs && AsksFor(s.procs[id], ns, d) && d !in s.shared.objects
  }

  /** A step that turns to forgetting is one that asked for the object and did not get it. */
  lemma StepMisses(schema: Schema, sh: Shared, p: Proc, ns: Namespace, d: Digest)
    requires Step(schema, sh, p).1 == Forgetting(ns, d) && p != Forgetting(ns, d)
    ensures AsksFor(p, ns, d) && d !in sh.objects
  {
    hide DecodeDirectory;
    hide SearchTurn;
    hide AfterAction;
    hide MayRead;
    hide ValidDigest;
  }

  /** And every process that asks for an object that is gone drops the row, and only that row, with its next two steps. */
  lemma MissesAreForgotten(schema: Schema, sh: Shared, later: Shared, p: Proc, ns: Namespace, d: Digest)
    requires AsksFor(p, ns, d) && d !in sh.objects
    ensures Step(schema, sh, p) == (sh, Forgetting(ns, d))
    ensures Step(schema, later, Forgetting(ns, d)).0 == later.(rows := later.rows - {(ns, d)}, forgot := true)
  {
    hide DecodeDirectory;
    hide SearchTurn;
    hide AfterAction;
  }

  lemma {:induction false} ForgettingMeansMissed(schema: Schema, moves: seq<LossyMove>, id: nat, ns: Namespace, d: Digest)
    requires id in Lossy(schema, moves).procs && Lossy(schema, moves).procs[id] == Forgetting(ns, d)
    ensures exists n: nat :: MissedAt(schema, moves, n, id, ns, d)
  {
    hide Step;
    hide AsksFor;
    if moves != [] {
      var init, m := moves[..|moves| - 1], moves[|moves| - 1];
      var s := Lossy(schema, init);
      if id in s.procs && s.procs[id] == Forgetting(ns, d) {
        ForgettingMeansMissed(schema, init, id, ns, d);
        var n: nat :| MissedAt(schema, init, n, id, ns, d);
        assert init[..n] == moves[..n];
        assert MissedAt(schema, moves, n, id, ns, d);
      } else {
        StepMisses(schema, s.shared, s.procs[id], ns, d);
        assert MissedAt(schema, moves, |init|, id, ns, d);
      }
    }
  }

  /** What a step does to rows: one comes, or a forgetting process drops its own. */
  lemma StepRows(schema: Schema, sh: Shared, p: Proc, k: Key)
    requires k in sh.rows && k !in Step(schema, sh, p).0.rows
    ensures p == Forgetting(k.0, k.1)
  {
    hide PublishTurn;
  }

  /**
   On storage that loses objects at any time, a row is dropped only by a request
   that asked for its object and found it missing.
   */
  lemma RowsGoOnlyWhenMissed(schema: Schema, moves: seq<LossyMove>, m: LossyMove, k: Key)
    requires k in Lossy(schema, moves).shared.rows && k !in DoLossy(schema, Lossy(schema, moves), m).shared.rows
    ensures m.Normal? && m.m.Run? && exists n: nat :: MissedAt(schema, moves, n, m.m.id, k.0, k.1)
  {
    hide Step;
    hide MissedAt;
    var s := Lossy(schema, moves);
    StepRows(schema, s.shared, s.procs[m.m.id], k);
    ForgettingMeansMissed(schema, moves, m.m.id, k.0, k.1);
  }

  // The object may be back by then.

  /** Move `n` stored the object. */
  ghost predicate StoredAt(schema: Schema, moves: seq<LossyMove>, n: nat, d: Digest) {
    && n < |moves|
    && d !in Lossy(schema, moves[..n]).shared.objects
    && d in Lossy(schema, moves[..n + 1]).shared.objects
  }

  /** An object that was missing and is there was stored in between. */
  lemma {:induction false} BackMeansStored(schema: Schema, moves: seq<LossyMove>, n: nat, d: Digest)
    requires n <= |moves| && d !in Lossy(schema, moves[..n]).shared.objects && d in Lossy(schema, moves).shared.objects
    ensures exists i :: n <= i && StoredAt(schema, moves, i, d)
    decreases |moves|
  {
    assert moves[..|moves|] == moves;
    var init := moves[..|moves| - 1];
    assert init[..n] == moves[..n];
    if d in Lossy(schema, init).shared.objects {
      BackMeansStored(schema, init, n, d);
      var i :| n <= i && StoredAt(schema, init, i, d);
      assert init[..i] == moves[..i] && init[..i + 1] == moves[..i + 1];
      assert StoredAt(schema, moves, i, d);
    } else {
      assert moves[..|init| + 1] == moves;
      assert StoredAt(schema, moves, |init|, d);
    }
  }

  /** A row is dropped although its object is there only if someone stored the object again after it was missed. */
  lemma DroppedThoughPresent(schema: Schema, moves: seq<LossyMove>, m: LossyMove, k: Key)
    requires k in Lossy(schema, moves).shared.rows && k !in DoLossy(schema, Lossy(schema, moves), m).shared.rows
    requires k.1 in Lossy(schema, moves).shared.objects
    ensures m.Normal? && m.m.Run?
    ensures exists n: nat, i: nat :: MissedAt(schema, moves, n, m.m.id, k.0, k.1) && n <= i && StoredAt(schema, moves, i, k.1)
  {
    RowsGoOnlyWhenMissed(schema, moves, m, k);
    var n: nat :| MissedAt(schema, moves, n, m.m.id, k.0, k.1);
    BackMeansStored(schema, moves, n, k.1);
  }

  /** An upload from its arrival to its end. */
  function UploadMoves(id: nat, ns: Namespace, d: Digest, bytes: Bytes): seq<LossyMove> {
    [Normal(Arrive(id, UploadBody(ns, d, bytes)))] + [Normal(Run(id))] + [Normal(Run(id))] + [Normal(Run(id))]
  }

  /** A download of an object that is gone, up to the point where it turns to the row. */
  function MissMoves(id: nat, ns: Namespace, d: Digest): seq<LossyMove> {
    [Normal(Arrive(id, DownloadVisible(ns, d)))] + [Normal(Run(id))] + [Normal(Run(id))]
  }

  /** An object is stored, lost and missed; and before the reader drops the row, it is stored and registered again. */
  function RaceMoves(ns: Namespace, d: Digest, bytes: Bytes): seq<LossyMove> {
    UploadMoves(0, ns, d, bytes) + [Lose(d)] + MissMoves(1, ns, d) + UploadMoves(2, ns, d, bytes)
  }

  lemma FromNext(schema: Schema, s: Server, moves: seq<LossyMove>, m: LossyMove)
    ensures From(schema, s, moves + [m]) == DoLossy(schema, From(schema, s, moves), m)
  {
    assert (moves + [m])[..|moves|] == moves;
  }

  lemma {:induction false} FromConcat(schema: Schema, s: Server, a: seq<LossyMove>, b: seq<LossyMove>)
    ensures From(schema, s, a + b) == From(schema, From(schema, s, a), b)
    decreases |b|
  {
    if b == [] {
      assert a + b == a;
    } else {
      FromConcat(schema, s, a, b[..|b| - 1]);
      assert (a + b)[..|a + b| - 1] == a + b[..|b| - 1];
    }
  }

  lemma FromOne(schema: Schema, s: Server, m: LossyMove)
    ensures From(schema, s, [m]) == DoLossy(schema, s, m)
  {
    assert [m][..0] == [];
  }

  lemma UploadRuns(schema: Schema, s: Server, id: nat, ns: Namespace, d: Digest, bytes: Bytes)
    requires id !in s.procs && ValidDigest(d) && Matches(schema.hasher, d, bytes) && d !in s.shared.objects
    ensures var sh := s.shared;
            From(schema, s, UploadMoves(id, ns, d, bytes)) ==
            Server(sh.(objects := sh.objects[d := bytes], rows := sh.rows + {(ns, d)}), s.procs[id := Ended(true)])
  {
    hide From;
    hide ValidDigest;
    hide Matches;
    hide PublishTurn;
    var m := [Normal(Arrive(id, UploadBody(ns, d, bytes)))];
    FromOne(schema, s, m[0]);
    FromNext(schema, s, m, Normal(Run(id)));
    FromNext(schema, s, m + [Normal(Run(id))], Normal(Run(id)));
    FromNext(schema, s, m + [Normal(Run(id))] + [Normal(Run(id))], Normal(Run(id)));
    var p := s.procs[id := UploadBody(ns, d, bytes)][id := UploadPut(ns, d, bytes)][id := UploadRegister(ns, d, Created)];
    assert p[id := Ended(true)] == s.procs[id := Ended(true)];
  }

  lemma MissRuns(schema: Schema, s: Server, id: nat, ns: Namespace, d: Digest)
    requires id !in s.procs && (ns, d) in s.shared.rows && d !in s.shared.objects
    ensures From(schema, s, MissMoves(id, ns, d)) == s.(procs := s.procs[id := Forgetting(ns, d)])
  {
    hide From;
    hide PublishTurn;
    var m := [Normal(Arrive(id, DownloadVisible(ns, d)))];
    FromOne(schema, s, m[0]);
    FromNext(schema, s, m, Normal(Run(id)));
    FromNext(schema, s, m + [Normal(Run(id))], Normal(Run(id)));
    var p := s.procs[id := DownloadVisible(ns, d)][id := DownloadGet(ns, d)];
    assert p[id := Forgetting(ns, d)] == s.procs[id := Forgetting(ns, d)];
  }

  /** It can happen: a reader that was slow to act drops the row of an object that is stored and registered again. */
  lemma AForgetCanComeLate(schema: Schema, ns: Namespace, d: Digest, bytes: Bytes)
    requires ValidDigest(d) && Matches(schema.hasher, d, bytes)
    ensures var s := Lossy(schema, RaceMoves(ns, d, bytes));
            var t := DoLossy(schema, s, Normal(Run(1)));
            && (ns, d) in s.shared.rows && d in s.shared.objects
            && (ns, d) !in t.shared.rows && d in t.shared.objects
  {
    hide From;
    hide ValidDigest;
    hide Matches;
    hide UploadMoves;
    hide MissMoves;
    hide PublishTurn;
    var first, missed := UploadMoves(0, ns, d, bytes), MissMoves(1, ns, d);
    var again := UploadMoves(2, ns, d, bytes);
    UploadRuns(schema, EMPTY, 0, ns, d, bytes);
    var stored := From(schema, EMPTY, first);
    var lost := DoLossy(schema, stored, Lose(d));
    FromOne(schema, stored, Lose(d));
    MissRuns(schema, lost, 1, ns, d);
    var missing := From(schema, lost, missed);
    UploadRuns(schema, missing, 2, ns, d, bytes);
    FromConcat(schema, EMPTY, first, [Lose(d)]);
    FromConcat(schema, EMPTY, first + [Lose(d)], missed);
    FromConcat(schema, EMPTY, first + [Lose(d)] + missed, again);
  }

  // What losses do not touch.

  /** Results never change or go, and what is stored is what its name says. */
  ghost predicate Kept(schema: Schema, s: Server, t: Server) {
    && (forall k | k in s.shared.results :: k in t.shared.results && t.shared.results[k] == s.shared.results[k])
    && (forall d | d in t.shared.objects :: ValidDigest(d) && Matches(schema.hasher, d, t.shared.objects[d]))
  }

  ghost predicate Verified(schema: Schema, s: Server) {
    && (forall d | d in s.shared.objects :: ValidDigest(d) && Matches(schema.hasher, d, s.shared.objects[d]))
    && (forall id | id in s.procs && s.procs[id].UploadPut? ::
          ValidDigest(s.procs[id].digest) && Matches(schema.hasher, s.procs[id].digest, s.procs[id].bytes))
  }

  lemma MoveVerified(schema: Schema, s: Server, m: LossyMove)
    requires Verified(schema, s)
    ensures Verified(schema, DoLossy(schema, s, m)) && Kept(schema, s, DoLossy(schema, s, m))
  {
    hide ValidDigest;
    hide Matches;
    hide PublishTurn;
  }

  lemma {:induction false} LossesTouchNoResult(schema: Schema, moves: seq<LossyMove>, more: seq<LossyMove>)
    ensures Verified(schema, Lossy(schema, moves + more))
    ensures Kept(schema, Lossy(schema, moves), Lossy(schema, moves + more))
    decreases |moves| + |more|, |more|
  {
    hide Verified;
    hide DoLossy;
    if more == [] {
      assert moves + more == moves;
      if moves == [] {
        EmptyVerified(schema);
      } else {
        var init := moves[..|moves| - 1];
        LossesTouchNoResult(schema, init, []);
        assert init + [] == init;
        MoveVerified(schema, Lossy(schema, init), moves[|moves| - 1]);
      }
    } else {
      var init := more[..|more| - 1];
      LossesTouchNoResult(schema, moves, init);
      assert (moves + more)[..|moves + more| - 1] == moves + init;
      MoveVerified(schema, Lossy(schema, moves + init), more[|more| - 1]);
    }
  }

  lemma EmptyVerified(schema: Schema)
    ensures Verified(schema, EMPTY)
  {
  }
}
