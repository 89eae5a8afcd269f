/**
 The database commits a result in two statements, an insert and then a read
 after a conflict. Interleaved with other commits and with sweeps, each call
 still answers what an atomic commit would have answered at an instant of its
 own, between its start and its reply.
 */
module Commit {
  import opened Encoding
  import opened Digests
  import opened Memory
  import Postgres

  type Table = map<Key, ActionResult>

  datatype Stage =
    | Inserting
    | Reading
    /** The last statement, at instant `point`, settled the answer. */
    | Settled(outcome: CommitOutcome, point: nat)
    | Replied(outcome: CommitOutcome, point: nat, ended: nat)
    /** The row that caused the conflict was gone when it was read back. */
    | Disappeared

  /** A call of commit, and the instant it started. */
  datatype Call = Call(key: Key, result: ActionResult, began: nat, at: Stage)

  /** `history` lists the table after every step, the current one last; an instant is a place in it. */
  datatype State = State(history: seq<Table>, calls: map<nat, Call>)

  datatype Move =
    | Begin(id: nat, key: Key, result: ActionResult)
    | Step(id: nat)
    | Reply(id: nat)
    | Sweep(gone: set<Key>)

  const START := State([map[]], map[])

  function Current(s: State): Table
    requires s.history != []
  {
    s.history[|s.history| - 1]
  }

  /** What a call's next statement does to the table and finds, at instant `now`. */
  function Statement(table: Table, c: Call, now: nat): (Table, Stage) {
    match c.at
    case Inserting =>
      if c.key in table then (table, Reading) else (table[c.key := c.result], Settled(CommitOutcome.Created, now))
    case Reading =>
      (match Lookup(table, c.key)
       case None => (table, Disappeared)
       case Some(existing) =>
         (table, Settled(if existing == c.result then CommitOutcome.AlreadyExists else Conflict, now)))
    case _ => (table, c.at)
  }

  /** On tables that mirror `table`, the two statements do and find what the database's do. */
  lemma StatementsAreTheDatabases(
    t: Postgres.Tables, table: Table, blobs: set<Key>, manifests: map<Key, ManifestRecord>,
    ns: Namespace, d: Digest, r: ActionResult, began: nat, now: nat)
    requires Postgres.Mirrors(t, table, blobs, manifests) && ValidDigest(d) && Postgres.Representable(d)
    ensures Postgres.InsertResult(t, ns, d, r).Some?
    ensures var (next, inserted) := Postgres.InsertResult(t, ns, d, r).value;
            var (after, at) := Statement(table, Call((ns, d), r, began, Inserting), now);
            && at == (if inserted then Settled(CommitOutcome.Created, now) else Reading)
            && Postgres.Mirrors(next, after, blobs, manifests)
    ensures Statement(table, Call((ns, d), r, began, Reading), now) ==
            (table, match Postgres.Get(t, ns, d)
                    case None => Disappeared
                    case Some(existing) => Settled(if existing == r then CommitOutcome.AlreadyExists else Conflict, now))
  {
    Postgres.CommitAlike(t, table, blobs, manifests, ns, d, r);
    assert Lookup(table, (ns, d)) == Postgres.Get(t, ns, d);
  }

  function Do(s: State, m: Move): State
    requires s.history != []
  {
    var now := |s.history|;
    match m
    case Begin(id, key, result) =>
      if id in s.calls then s
      else State(s.history + [Current(s)], s.calls[id := Call(key, result, now, Inserting)])
    case Step(id) =>
      if id !in s.calls then s
      else
        var (table, at) := Statement(Current(s), s.calls[id], now);
        State(s.history + [table], s.calls[id := s.calls[id].(at := at)])
    case Reply(id) =>
      if id in s.calls && s.calls[id].at.Settled? then
        var at := s.calls[id].at;
        State(s.history + [Current(s)], s.calls[id := s.calls[id].(at := Replied(at.outcome, at.point, now))])
      else s
    case Sweep(gone) => State(s.history + [Current(s) - gone], s.calls)
  }

  function Run(moves: seq<Move>): (s: State)
    ensures s.history != []
  {
    if moves == [] then START else Do(Run(moves[..|moves| - 1]), moves[|moves| - 1])
  }

  // Linearisation.

  predicate HasPoint(c: Call) {
    c.at.Settled? || c.at.Replied?
  }

  /** The atomic commit at the call's own instant gives this answer, and makes the table that followed. */
  ghost predicate Atomic(s: State, c: Call)
    requires HasPoint(c)
  {
    && c.began < c.at.point < |s.history|
    && CommitTo(s.history[c.at.point - 1], c.key, c.result) == (s.history[c.at.point], c.at.outcome)
  }

  /** The row was there at an instant of the call, and was taken away at a later one. */
  ghost predicate TakenAway(s: State, c: Call) {
    exists i, j :: c.began <= i < j < |s.history| && c.key in s.history[i] && c.key !in s.history[j]
  }

  ghost predicate CallHolds(s: State, c: Call) {
    && c.began < |s.history|
    && match c.at
       case Inserting => true
       case Reading => exists i :: c.began <= i < |s.history| && c.key in s.history[i]
       case Settled(_, _) => Atomic(s, c)
       case Replied(_, point, ended) => Atomic(s, c) && point < ended < |s.history|
       case Disappeared => TakenAway(s, c)
  }

  /** No two calls share an instant. */
  ghost predicate PointsAreOwn(s: State) {
    forall a, b | a in s.calls && b in s.calls && HasPoint(s.calls[a]) && HasPoint(s.calls[b]) && a != b ::
      s.calls[a].at.point != s.calls[b].at.point
  }

  ghost predicate SomePoint(s: State, i: nat) {
    exists id :: id in s.calls && HasPoint(s.calls[id]) && s.calls[id].at.point == i
  }

  predicate OnlyLoses(before: Table, after: Table) {
    forall k | k in after :: k in before && before[k] == after[k]
  }

  /** The table changes only at some call's instant, or by losing rows. */
  ghost predicate Accounted(s: State) {
    forall i | 0 < i < |s.history| :: OnlyLoses(s.history[i - 1], s.history[i]) || SomePoint(s, i)
  }

  ghost predicate Invariant(s: State) {
    && s.history != []
    && (forall id | id in s.calls :: CallHolds(s, s.calls[id]))
    && PointsAreOwn(s)
    && Accounted(s)
  }

  lemma CallSurvives(s: State, t: State, c: Call)
    requires CallHolds(s, c) && s.history <= t.history
    ensures CallHolds(t, c)
  {
    assert forall i | 0 <= i < |s.history| :: t.history[i] == s.history[i];
    match c.at {
      case Reading =>
        var i :| c.began <= i < |s.history| && c.key in s.history[i];
        assert c.key in t.history[i];
      case Disappeared =>
        var i, j :| c.began <= i < j < |s.history| && c.key in s.history[i] && c.key !in s.history[j];
        assert c.key in t.history[i] && c.key !in t.history[j];
      case _ =>
    }
  }

  lemma StatementHolds(s: State, id: nat)
    requires s.history != [] && id in s.calls && CallHolds(s, s.calls[id])
    ensures var t := Do(s, Step(id)); CallHolds(t, t.calls[id])
  {
    var t, c := Do(s, Step(id)), s.calls[id];
    var n := |s.history|;
    assert t.history[n - 1] == Current(s);
    match c.at {
      case Inserting =>
        if c.key in Current(s) {
          assert c.key in t.history[n];
        }
      case Reading =>
        if c.key !in Current(s) {
          var i :| c.began <= i < |s.history| && c.key in s.history[i];
          assert c.key in t.history[i] && c.key !in t.history[n];
        }
      case _ => CallSurvives(s, t, c);
    }
  }

  /** A point once settled stays, and a new one is now. */
  lemma PointsKept(s: State, m: Move)
    requires s.history != []
    ensures var t := Do(s, m);
            && (forall id | id in s.calls && HasPoint(s.calls[id]) ::
                  id in t.calls && HasPoint(t.calls[id]) && t.calls[id].at.point == s.calls[id].at.point)
            && (forall id | id in t.calls && HasPoint(t.calls[id]) && !(id in s.calls && HasPoint(s.calls[id])) ::
                  m == Step(id) && t.calls[id].at.point == |s.history|)
  {
  }

  lemma AccountKept(s: State, m: Move)
    requires s.history != [] && Accounted(s)
    ensures Accounted(Do(s, m))
  {
    PointsKept(s, m);
    var t := Do(s, m);
    forall i | 0 < i < |t.history| ensures OnlyLoses(t.history[i - 1], t.history[i]) || SomePoint(t, i) {
      if i < |s.history| {
        assert t.history[i - 1] == s.history[i - 1] && t.history[i] == s.history[i];
        if SomePoint(s, i) {
          var id :| id in s.calls && HasPoint(s.calls[id]) && s.calls[id].at.point == i;
          assert id in t.calls && HasPoint(t.calls[id]) && t.calls[id].at.point == i;
        }
      } else {
        assert t.history[i - 1] == Current(s);
        if m.Step? && t.history[i] != Current(s) {
          assert HasPoint(t.calls[m.id]) && t.calls[m.id].at.point == i;
        }
      }
    }
  }

  lemma PointsStayOwn(s: State, m: Move)
    requires Invariant(s)
    ensures PointsAreOwn(Do(s, m))
  {
    hide Accounted;
    PointsKept(s, m);
    hide Do;
    var t := Do(s, m);
    forall a, b | a in t.calls && b in t.calls && HasPoint(t.calls[a]) && HasPoint(t.calls[b]) && a != b
      ensures t.calls[a].at.point != t.calls[b].at.point
    {
      assert a in s.calls && HasPoint(s.calls[a]) ==> CallHolds(s, s.calls[a]);
      assert b in s.calls && HasPoint(s.calls[b]) ==> CallHolds(s, s.calls[b]);
    }
  }

  lemma DoHolds(s: State, m: Move)
    requires Invariant(s)
    ensures Invariant(Do(s, m)) && s.history <= Do(s, m).history
  {
    hide Accounted;
    hide PointsAreOwn;
    hide Statement;
    AccountKept(s, m);
    PointsStayOwn(s, m);
    var t := Do(s, m);
    forall id | id in t.calls ensures CallHolds(t, t.calls[id]) {
      if m.Step? && m.id == id {
        StatementHolds(s, id);
      } else if id in s.calls {
        CallSurvives(s, t, s.calls[id]);
      }
    }
  }

  lemma {:induction false} EveryRun(moves: seq<Move>)
    ensures Invariant(Run(moves))
  {
    if moves != [] {
      EveryRun(moves[..|moves| - 1]);
      DoHolds(Run(moves[..|moves| - 1]), moves[|moves| - 1]);
    }
  }

  /**
   In every interleaving of commits and sweeps: each answer is the atomic
   store's at an instant after the call's start and before its reply, which it
   shares with no other call; the table changes at these instants only, or by
   losing rows; and a call fails only because the row it ran into was taken away
   while it ran.
   */
  lemma TwoStatementsLookAtomic(moves: seq<Move>)
    ensures var s := Run(moves);
            && (forall id | id in s.calls && HasPoint(s.calls[id]) ::
                  && Atomic(s, s.calls[id])
                  && (s.calls[id].at.Replied? ==> s.calls[id].at.point < s.calls[id].at.ended < |s.history|))
            && PointsAreOwn(s) && Accounted(s)
            && (forall id | id in s.calls && s.calls[id].at.Disappeared? :: TakenAway(s, s.calls[id]))
  {
    EveryRun(moves);
    var s := Run(moves);
    forall id | id in s.calls ensures CallHolds(s, s.calls[id]) {
    }
  }

  /** Only a sweep takes rows away. */
  lemma OnlySweepsRemove(s: State, m: Move, key: Key)
    requires s.history != [] && key in Current(s) && key !in Current(Do(s, m))
    ensures m.Sweep? && key in m.gone
  {
  }

  // Without sweeps.

  predicate NoSweeps(moves: seq<Move>) {
    forall i | 0 <= i < |moves| :: !moves[i].Sweep?
  }

  /** Every table extends those before it. */
  ghost predicate Grows(s: State) {
    forall i, j, k | 0 <= i <= j < |s.history| && k in s.history[i] ::
      k in s.history[j] && s.history[j][k] == s.history[i][k]
  }

  /** A move other than a sweep keeps every row. */
  lemma MoveGrows(s: State, m: Move, k: Key)
    requires s.history != [] && !m.Sweep? && k in Current(s)
    ensures k in Current(Do(s, m)) && Current(Do(s, m))[k] == Current(s)[k]
  {
  }

  lemma StepGrows(s: State, m: Move)
    requires s.history != [] && Grows(s) && !m.Sweep?
    ensures Grows(Do(s, m))
  {
    var t, n := Do(s, m), |s.history|;
    assert |t.history| <= n + 1;
    forall i, j, k | 0 <= i <= j < |t.history| && k in t.history[i]
      ensures k in t.history[j] && t.history[j][k] == t.history[i][k]
    {
      if i < n {
        assert t.history[i] == s.history[i];
        assert k in s.history[n - 1] && s.history[n - 1][k] == s.history[i][k];
        MoveGrows(s, m, k);
      }
      if j < n {
        assert t.history[j] == s.history[j];
      }
    }
  }

  lemma {:induction false} RunGrows(moves: seq<Move>)
    requires NoSweeps(moves)
    ensures Grows(Run(moves))
  {
    if moves != [] {
      RunGrows(moves[..|moves| - 1]);
      StepGrows(Run(moves[..|moves| - 1]), moves[|moves| - 1]);
    }
  }

  predicate IsCreator(c: Call, key: Key) {
    HasPoint(c) && c.at.outcome == CommitOutcome.Created && c.key == key
  }

  /**
   Without sweeps no call fails, each key is created by at most one call, and
   every table from that instant on gives that call's result.
   */
  lemma FirstResultStays(moves: seq<Move>)
    requires NoSweeps(moves)
    ensures var s := Run(moves);
            && (forall id | id in s.calls :: !s.calls[id].at.Disappeared?)
            && (forall a, b, key | a in s.calls && b in s.calls && IsCreator(s.calls[a], key) && IsCreator(s.calls[b], key) ::
                  a == b)
            && (forall a, j | a in s.calls && IsCreator(s.calls[a], s.calls[a].key) && s.calls[a].at.point <= j < |s.history| ::
                  Lookup(s.history[j], s.calls[a].key) == Some(s.calls[a].result))
  {
    RunGrows(moves);
    EveryRun(moves);
    hide Run;
    var s := Run(moves);
    forall id | id in s.calls ensures !s.calls[id].at.Disappeared? {
      assert CallHolds(s, s.calls[id]);
    }
    forall a | a in s.calls && HasPoint(s.calls[a]) ensures Atomic(s, s.calls[a]) {
      assert CallHolds(s, s.calls[a]);
    }
    forall a, b, key | a in s.calls && b in s.calls && IsCreator(s.calls[a], key) && IsCreator(s.calls[b], key)
      ensures a == b
    {
      CreatorsInOrder(s, a, b, key);
      CreatorsInOrder(s, b, a, key);
    }
  }

  /** A key created once is not created later. */
  lemma CreatorsInOrder(s: State, a: nat, b: nat, key: Key)
    requires Grows(s) && a in s.calls && b in s.calls
    requires IsCreator(s.calls[a], key) && IsCreator(s.calls[b], key) && Atomic(s, s.calls[a]) && Atomic(s, s.calls[b])
    ensures s.calls[b].at.point <= s.calls[a].at.point
  {
    assert key in s.history[s.calls[a].at.point];
  }
}
