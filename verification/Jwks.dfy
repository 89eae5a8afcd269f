/**
 Token verification against a cached key set that is refreshed on demand. Any
 number of verifications run at once; each lock, clock reading and fetch is a
 step, and a request may be dropped at any of them.
 */
module Jwks {
  import opened Encoding
  import opened Clock

  /** Seconds between two attempts to fetch the key set. */
  const COOLDOWN := 30

  type KeyId = string

  type KeySet = set<KeyId>

  /** Why a token is refused, and under which of the sets that was decided. */
  datatype Why = KeyMissing(version: nat) | RefreshFailed | TokenInvalid(version: nat)

  /**
   A verification: which key it wants; and when it has begun, the instant,
   whether the set held the key, whether the set was stale, and `since`, how many
   sets there had been by then.
   */
  datatype Proc = Proc(kid: KeyId, begun: Time, known: bool, stale: bool, since: nat, at: Stage)

  datatype Stage =
    | Reading
    | WantsLock
    | Checking
    | Attempting
    | Fetching
    | Installing(fetched: KeySet)
    | Deciding
    | Passed(version: nat)
    | Denied(why: Why)

  /** `held` lists every key set there ever was, the current one last; `attempts` when fetches began. */
  datatype State = State(
    now: Time,
    held: seq<KeySet>,
    fetchedAt: Time,
    attemptedAt: Option<Time>,
    holder: Option<nat>,
    procs: map<nat, Proc>,
    attempts: seq<Time>)

  function Current(s: State): KeySet
    requires s.held != []
  {
    s.held[|s.held| - 1]
  }

  function Initial(keys: KeySet, now: Time): State {
    State(now, [keys], now, None, None, map[], [])
  }

  /**
   Time passes; a verification arrives, takes a step, or is dropped. `fetched`
   is what the network answers, if it does; `valid` what token validation says.
   */
  datatype Move =
    | Tick
    | Arrive(id: nat, kid: KeyId)
    | Act(id: nat, fetched: Option<KeySet>, valid: bool)
    | Cancel(id: nat)

  predicate HoldsLock(p: Proc) {
    p.at.Checking? || p.at.Attempting? || p.at.Fetching? || p.at.Installing?
  }

  function Put(s: State, id: nat, p: Proc): State {
    s.(procs := s.procs[id := p])
  }

  function Go(s: State, id: nat, at: Stage): State
    requires id in s.procs
  {
    Put(s, id, s.procs[id].(at := at))
  }

  function Unlock(s: State): State {
    s.(holder := None)
  }

  predicate IsStale(refresh: nat, s: State) {
    s.fetchedAt + refresh <= s.now
  }

  predicate CoolingDown(s: State) {
    s.attemptedAt.Some? && s.now < s.attemptedAt.value + COOLDOWN
  }

  function Advance(refresh: nat, s: State, id: nat, fetched: Option<KeySet>, valid: bool): State
    requires s.held != [] && id in s.procs
  {
    var p := s.procs[id];
    match p.at
    case Reading =>
      var known, stale := p.kid in Current(s), IsStale(refresh, s);
      Put(s, id, p.(begun := s.now, known := known, stale := stale, since := |s.held|,
                    at := if stale || !known then WantsLock else Deciding))
    case WantsLock => if s.holder.None? then Go(s, id, Checking).(holder := Some(id)) else s
    case Checking =>
      if CoolingDown(s) || (!IsStale(refresh, s) && p.kid in Current(s)) then Unlock(Go(s, id, Deciding))
      else Go(s, id, Attempting)
    case Attempting => Go(s, id, Fetching).(attemptedAt := Some(s.now), attempts := s.attempts + [s.now])
    case Fetching =>
      (match fetched
       case Some(keys) => Go(s, id, Installing(keys))
       case None => Unlock(Go(s, id, if p.known then Deciding else Denied(RefreshFailed))))
    case Installing(keys) => Unlock(Go(s, id, Deciding)).(held := s.held + [keys], fetchedAt := s.now)
    case Deciding =>
      Go(s, id,
         if p.kid !in Current(s) then Denied(KeyMissing(|s.held| - 1))
         else if valid then Passed(|s.held| - 1) else Denied(TokenInvalid(|s.held| - 1)))
    case _ => s
  }

  function Step(refresh: nat, s: State, m: Move): State
    requires s.held != []
  {
    match m
    case Tick => s.(now := s.now + 1)
    case Arrive(id, kid) => if id in s.procs then s else Put(s, id, Proc(kid, 0, false, false, 0, Reading))
    case Act(id, fetched, valid) => if id in s.procs then Advance(refresh, s, id, fetched, valid) else s
    case Cancel(id) =>
      if id !in s.procs then s
      else (if HoldsLock(s.procs[id]) then Unlock(s) else s).(procs := s.procs - {id})
  }

  function Run(refresh: nat, start: State, moves: seq<Move>): (s: State)
    requires start.held != []
    ensures s.held != []
  {
    if moves == [] then start else Step(refresh, Run(refresh, start, moves[..|moves| - 1]), moves[|moves| - 1])
  }

  // Invariants.

  /** The lock is held by exactly the one verification that is past taking it. */
  ghost predicate Exclusive(s: State) {
    forall id | id in s.procs :: HoldsLock(s.procs[id]) <==> s.holder == Some(id)
  }

  ghost predicate HolderLives(s: State) {
    s.holder.Some? ==> s.holder.value in s.procs
  }

  /** Fetches begin at least a cooldown apart, and one about to begin keeps that distance. */
  ghost predicate Paced(s: State) {
    && Spaced(s.attempts, COOLDOWN)
    && (s.attempts == [] <==> s.attemptedAt.None?)
    && (s.attempts != [] ==> s.attemptedAt == Some(s.attempts[|s.attempts| - 1]) && s.attemptedAt.value <= s.now)
    && (forall id | id in s.procs && s.procs[id].at.Attempting? :: !CoolingDown(s))
  }

  /** Each installed set was fetched by its own attempt. */
  ghost predicate Earned(s: State) {
    |s.held| - 1 + (if s.holder.Some? && s.holder.value in s.procs && Underway(s.procs[s.holder.value]) then 1 else 0)
      <= |s.attempts|
  }

  predicate Underway(p: Proc) {
    p.at.Fetching? || p.at.Installing?
  }

  ghost predicate Sound(refresh: nat, s: State) {
    && s.held != []
    && forall id | id in s.procs :: SoundProc(refresh, s, s.procs[id])
  }

  /** A set that was current at an instant of the verification. */
  predicate Seen(s: State, p: Proc, version: int) {
    0 < p.since && p.since - 1 <= version < |s.held|
  }

  /** A set of its time that held the key, before the set `until`. */
  ghost predicate HeldBefore(s: State, p: Proc, until: nat) {
    exists v :: Seen(s, p, v) && v < until && p.kid in s.held[v]
  }

  /** A fetch was begun during the verification, or so shortly before that another was not allowed. */
  ghost predicate Tried(s: State, p: Proc) {
    exists i :: 0 <= i < |s.attempts| && p.begun < s.attempts[i] + COOLDOWN
  }

  /** A stale set was not simply used: a fetch was tried, or a newer set has come. */
  ghost predicate Renewed(s: State, p: Proc) {
    p.stale ==> Tried(s, p) || p.since < |s.held|
  }

  /**
   Verdicts are those of a set current at an instant of the verification. A key is
   refused as missing only when a refresh was tried for it, or when a set that
   held it was replaced meanwhile; and a failed refresh costs no known key.
   */
  ghost predicate SoundProc(refresh: nat, s: State, p: Proc) {
    && s.held != [] && p.since <= |s.held| && p.begun <= s.now
    && (p.at.Reading? || (0 < p.since && (p.known <==> p.kid in s.held[p.since - 1])))
    && (p.stale && p.since == |s.held| ==> IsStale(refresh, s))
    && match p.at
       case Fetching => Tried(s, p)
       case Installing(_) => Tried(s, p)
       case Deciding => Renewed(s, p) && (Tried(s, p) || HeldBefore(s, p, |s.held|))
       case Passed(version) => Seen(s, p, version) && p.kid in s.held[version] && Renewed(s, p)
       case Denied(KeyMissing(version)) =>
         && Seen(s, p, version) && p.kid !in s.held[version] && Renewed(s, p)
         && (Tried(s, p) || HeldBefore(s, p, version))
       case Denied(TokenInvalid(version)) => Seen(s, p, version) && p.kid in s.held[version] && Renewed(s, p)
       case Denied(RefreshFailed) => !p.known && Tried(s, p)
       case _ => true
  }

  ghost predicate Invariant(refresh: nat, s: State) {
    Exclusive(s) && HolderLives(s) && Paced(s) && Earned(s) && Sound(refresh, s)
  }

  lemma StepKeepsLock(refresh: nat, s: State, m: Move)
    requires s.held != [] && Exclusive(s) && HolderLives(s)
    ensures Exclusive(Step(refresh, s, m)) && HolderLives(Step(refresh, s, m))
  {
    hide IsStale;
    hide CoolingDown;
    hide Current;
  }

  lemma StepKeepsPace(refresh: nat, s: State, m: Move)
    requires s.held != [] && Exclusive(s) && Paced(s)
    ensures Paced(Step(refresh, s, m))
  {
    hide IsStale;
    hide Current;
    hide Spaced;
    if m.Act? && m.id in s.procs && s.procs[m.id].at.Attempting? {
      SpacedSnoc(s.attempts, COOLDOWN, s.now);
    }
  }

  /** Nothing that happened is undone: time, sets and attempts only go on, and a set turns stale until another comes. */
  ghost predicate Later(refresh: nat, s: State, t: State) {
    && s.now <= t.now && s.held <= t.held && s.attempts <= t.attempts
    && (IsStale(refresh, s) && |t.held| == |s.held| ==> IsStale(refresh, t))
  }

  lemma StepIsLater(refresh: nat, s: State, m: Move)
    requires s.held != []
    ensures Later(refresh, s, Step(refresh, s, m))
  {
  }

  lemma TriedLater(refresh: nat, s: State, t: State, p: Proc)
    requires Later(refresh, s, t) && Tried(s, p)
    ensures Tried(t, p)
  {
    var i :| 0 <= i < |s.attempts| && p.begun < s.attempts[i] + COOLDOWN;
    assert t.attempts[i] == s.attempts[i];
  }

  lemma HeldBeforeLater(refresh: nat, s: State, t: State, p: Proc, until: nat)
    requires Later(refresh, s, t) && HeldBefore(s, p, until)
    ensures HeldBefore(t, p, until)
  {
    var v :| Seen(s, p, v) && v < until && p.kid in s.held[v];
    assert Seen(t, p, v) && t.held[v] == s.held[v];
  }

  /** What is true of a verification stays true while others act. */
  lemma SoundLater(refresh: nat, s: State, t: State, p: Proc)
    requires SoundProc(refresh, s, p) && Later(refresh, s, t)
    ensures SoundProc(refresh, t, p)
  {
    assert forall i | 0 <= i < |s.held| :: t.held[i] == s.held[i];
    if Tried(s, p) {
      TriedLater(refresh, s, t, p);
    }
    hide Tried;
    match p.at {
      case Deciding =>
        if HeldBefore(s, p, |s.held|) {
          HeldBeforeLater(refresh, s, t, p, |s.held|);
          var v :| Seen(t, p, v) && v < |s.held| && p.kid in t.held[v];
          assert HeldBefore(t, p, |t.held|);
        }
      case Denied(KeyMissing(version)) =>
        if HeldBefore(s, p, version) {
          HeldBeforeLater(refresh, s, t, p, version);
        }
      case _ =>
    }
  }

  /** The only verification that may find itself sound in a new way is the one that acts. */
  lemma ActKeepsSound(refresh: nat, s: State, id: nat, fetched: Option<KeySet>, valid: bool)
    requires s.held != [] && id in s.procs && SoundProc(refresh, s, s.procs[id]) && Paced(s)
    ensures var t := Advance(refresh, s, id, fetched, valid); SoundProc(refresh, t, t.procs[id])
  {
    var t, p := Advance(refresh, s, id, fetched, valid), s.procs[id];
    var q := t.procs[id];
    StepIsLater(refresh, s, Act(id, fetched, valid));
    match p.at {
      case Reading => ReadingKeepsSound(refresh, s, id, fetched, valid);
      case Checking => CheckingKeepsSound(refresh, s, id, fetched, valid);
      case Attempting =>
        assert t.attempts[|s.attempts|] == s.now;
      case Installing(keys) =>
        TriedLater(refresh, s, t, p);
        assert forall i | 0 <= i < |s.held| :: t.held[i] == s.held[i];
        assert Tried(t, q);
      case Deciding => DecidingKeepsSound(refresh, s, id, fetched, valid);
      case _ => SameSound(refresh, s, id, fetched, valid);
    }
  }

  lemma ReadingKeepsSound(refresh: nat, s: State, id: nat, fetched: Option<KeySet>, valid: bool)
    requires s.held != [] && id in s.procs && s.procs[id].at.Reading?
    ensures var t := Advance(refresh, s, id, fetched, valid); SoundProc(refresh, t, t.procs[id])
  {
    var t := Advance(refresh, s, id, fetched, valid);
    assert t.procs[id].at.Deciding? ==> Seen(t, t.procs[id], |s.held| - 1);
  }

  lemma CheckingKeepsSound(refresh: nat, s: State, id: nat, fetched: Option<KeySet>, valid: bool)
    requires s.held != [] && id in s.procs && SoundProc(refresh, s, s.procs[id]) && Paced(s) && s.procs[id].at.Checking?
    ensures var t := Advance(refresh, s, id, fetched, valid); SoundProc(refresh, t, t.procs[id])
  {
    hide Spaced;
    var t := Advance(refresh, s, id, fetched, valid);
    if CoolingDown(s) {
      assert t.attempts[|t.attempts| - 1] == s.attemptedAt.value;
    } else if t.procs[id].at.Deciding? {
      assert Seen(t, t.procs[id], |s.held| - 1);
    }
  }

  lemma DecidingKeepsSound(refresh: nat, s: State, id: nat, fetched: Option<KeySet>, valid: bool)
    requires s.held != [] && id in s.procs && SoundProc(refresh, s, s.procs[id]) && s.procs[id].at.Deciding?
    ensures var t := Advance(refresh, s, id, fetched, valid); SoundProc(refresh, t, t.procs[id])
  {
    var t, p := Advance(refresh, s, id, fetched, valid), s.procs[id];
    StepIsLater(refresh, s, Act(id, fetched, valid));
    if Tried(s, p) {
      TriedLater(refresh, s, t, p);
      assert Tried(t, t.procs[id]);
    } else {
      var v :| Seen(s, p, v) && v < |s.held| && p.kid in s.held[v];
      assert Seen(t, t.procs[id], v);
    }
  }

  lemma SameSound(refresh: nat, s: State, id: nat, fetched: Option<KeySet>, valid: bool)
    requires s.held != [] && id in s.procs && SoundProc(refresh, s, s.procs[id])
    requires var at := s.procs[id].at; at.WantsLock? || at.Fetching? || at.Passed? || at.Denied?
    ensures var t := Advance(refresh, s, id, fetched, valid); SoundProc(refresh, t, t.procs[id])
  {
    var t, p := Advance(refresh, s, id, fetched, valid), s.procs[id];
    StepIsLater(refresh, s, Act(id, fetched, valid));
    if p.at.Fetching? {
      TriedLater(refresh, s, t, p);
      assert Tried(t, t.procs[id]);
      if t.procs[id].at.Deciding? {
        assert Seen(t, t.procs[id], p.since - 1);
      }
    } else {
      SoundLater(refresh, s, t, p);
    }
  }

  lemma StepKeepsSound(refresh: nat, s: State, m: Move)
    requires Sound(refresh, s) && Paced(s)
    ensures Sound(refresh, Step(refresh, s, m))
  {
    hide SoundProc;
    hide Paced;
    var t := Step(refresh, s, m);
    StepIsLater(refresh, s, m);
    hide Later;
    if m.Act? && m.id in s.procs {
      assert SoundProc(refresh, s, s.procs[m.id]);
      ActKeepsSound(refresh, s, m.id, m.fetched, m.valid);
      OthersUntouched(refresh, s, m.id, m.fetched, m.valid);
    }
    hide Advance;
    forall id | id in t.procs ensures SoundProc(refresh, t, t.procs[id]) {
      if id in s.procs {
        assert SoundProc(refresh, s, s.procs[id]);
        SoundLater(refresh, s, t, s.procs[id]);
      } else {
        ArrivalIsSound(refresh, t, m.kid);
      }
    }
  }

  lemma OthersUntouched(refresh: nat, s: State, id: nat, fetched: Option<KeySet>, valid: bool)
    requires s.held != [] && id in s.procs
    ensures var t := Advance(refresh, s, id, fetched, valid);
            && t.held != [] && t.procs.Keys == s.procs.Keys
            && forall other | other in s.procs && other != id :: t.procs[other] == s.procs[other]
  {
  }

  lemma ArrivalIsSound(refresh: nat, s: State, kid: KeyId)
    requires s.held != []
    ensures SoundProc(refresh, s, Proc(kid, 0, false, false, 0, Reading))
  {
  }

  lemma StepKeepsEarned(refresh: nat, s: State, m: Move)
    requires s.held != [] && Exclusive(s) && HolderLives(s) && Earned(s)
    ensures Earned(Step(refresh, s, m))
  {
  }

  lemma {:induction false} EveryRun(refresh: nat, keys: KeySet, now: Time, moves: seq<Move>)
    ensures Invariant(refresh, Run(refresh, Initial(keys, now), moves))
  {
    if moves != [] {
      var s := Run(refresh, Initial(keys, now), moves[..|moves| - 1]);
      EveryRun(refresh, keys, now, moves[..|moves| - 1]);
      var m := moves[|moves| - 1];
      StepKeepsLock(refresh, s, m);
      StepKeepsPace(refresh, s, m);
      StepKeepsEarned(refresh, s, m);
      StepKeepsSound(refresh, s, m);
    }
  }

  /** In every run, any `n` attempts to fetch take at least `n - 1` cooldowns, and sets are installed no oftener. */
  lemma FetchesAreRateLimited(refresh: nat, keys: KeySet, now: Time, moves: seq<Move>, i: nat, j: nat)
    requires i <= j < |Run(refresh, Initial(keys, now), moves).attempts|
    ensures var s := Run(refresh, Initial(keys, now), moves);
            && s.attempts[i] + (j - i) * COOLDOWN <= s.attempts[j]
            && |s.held| - 1 <= |s.attempts|
  {
    EveryRun(refresh, keys, now, moves);
    SpacedWindow(Run(refresh, Initial(keys, now), moves).attempts, COOLDOWN, i, j);
  }

  /**
   In every run: a token passes only under a key of a set that was current during
   its verification, and is refused for want of a key only under such a set that
   lacks it, after a refresh was tried or a set that held the key was replaced; a
   stale set is not relied on without either; and a failed refresh costs no key
   the set held when the verification began.
   */
  lemma VerdictsAreSound(refresh: nat, keys: KeySet, now: Time, moves: seq<Move>, id: nat)
    requires id in Run(refresh, Initial(keys, now), moves).procs
    ensures var s := Run(refresh, Initial(keys, now), moves);
            var p := s.procs[id];
            match p.at
            case Passed(version) => Seen(s, p, version) && p.kid in s.held[version] && Renewed(s, p)
            case Denied(KeyMissing(version)) =>
              && Seen(s, p, version) && p.kid !in s.held[version] && Renewed(s, p)
              && (Tried(s, p) || HeldBefore(s, p, version))
            case Denied(TokenInvalid(version)) => Seen(s, p, version) && p.kid in s.held[version] && Renewed(s, p)
            case Denied(RefreshFailed) => Seen(s, p, p.since - 1) && p.kid !in s.held[p.since - 1] && Tried(s, p)
            case _ => true
  {
    EveryRun(refresh, keys, now, moves);
    var s := Run(refresh, Initial(keys, now), moves);
    hide Run;
    assert SoundProc(refresh, s, s.procs[id]);
  }

  predicate IsVerdict(at: Stage) {
    at.Passed? || at.Denied?
  }

  /** Which verdict the set now current, and the token, ask for. */
  predicate Fitting(s: State, kid: KeyId, at: Stage, fetched: Option<KeySet>, valid: bool)
    requires s.held != []
  {
    match at
    case Passed(version) => version == |s.held| - 1 && kid in Current(s) && valid
    case Denied(KeyMissing(version)) => version == |s.held| - 1 && kid !in Current(s)
    case Denied(TokenInvalid(version)) => version == |s.held| - 1 && kid in Current(s) && !valid
    case Denied(RefreshFailed) => fetched == None
    case _ => false
  }

  /** Move `n` of the run gave verification `id` this verdict, by the set current then. */
  ghost predicate GivenAt(refresh: nat, start: State, moves: seq<Move>, n: nat, id: nat, at: Stage)
    requires start.held != []
  {
    && n < |moves| && moves[n].Act? && moves[n].id == id
    && var s := Run(refresh, start, moves[..n]);
       id in s.procs && !IsVerdict(s.procs[id].at) && Fitting(s, s.procs[id].kid, at, moves[n].fetched, moves[n].valid)
  }

  lemma ActIsFitting(refresh: nat, s: State, id: nat, fetched: Option<KeySet>, valid: bool)
    requires s.held != [] && id in s.procs && !IsVerdict(s.procs[id].at)
    ensures var at := Advance(refresh, s, id, fetched, valid).procs[id].at;
            IsVerdict(at) ==> Fitting(s, s.procs[id].kid, at, fetched, valid)
  {
    hide IsStale;
    hide CoolingDown;
  }

  lemma VerdictIsFitting(refresh: nat, s: State, m: Move, id: nat)
    requires s.held != [] && id in Step(refresh, s, m).procs && IsVerdict(Step(refresh, s, m).procs[id].at)
    requires !(id in s.procs && IsVerdict(s.procs[id].at))
    ensures m.Act? && m.id == id && id in s.procs
    ensures Fitting(s, s.procs[id].kid, Step(refresh, s, m).procs[id].at, m.fetched, m.valid)
  {
    hide Fitting;
    hide Advance;
    if m.Act? && m.id in s.procs {
      OthersUntouched(refresh, s, m.id, m.fetched, m.valid);
      if m.id == id {
        ActIsFitting(refresh, s, id, m.fetched, m.valid);
      }
    }
  }

  /** A verdict, once given, stands until the verification is dropped. */
  lemma VerdictStands(refresh: nat, s: State, m: Move, id: nat)
    requires s.held != [] && id in s.procs && IsVerdict(s.procs[id].at) && id in Step(refresh, s, m).procs
    ensures Step(refresh, s, m).procs[id] == s.procs[id]
  {
    hide IsStale;
    hide CoolingDown;
    if m.Act? && m.id in s.procs && m.id != id {
      OthersUntouched(refresh, s, m.id, m.fetched, m.valid);
    }
  }

  /** Every verdict was given at one move of the run, by the set current at that move. */
  lemma {:induction false} VerdictsAreOfTheirInstant(refresh: nat, start: State, moves: seq<Move>, id: nat)
    requires start.held != [] && start.procs == map[]
    requires id in Run(refresh, start, moves).procs && IsVerdict(Run(refresh, start, moves).procs[id].at)
    ensures exists n: nat :: GivenAt(refresh, start, moves, n, id, Run(refresh, start, moves).procs[id].at)
  {
    if moves != [] {
      var init, m := moves[..|moves| - 1], moves[|moves| - 1];
      var s, t := Run(refresh, start, init), Run(refresh, start, moves);
      if id in s.procs && IsVerdict(s.procs[id].at) {
        VerdictStands(refresh, s, m, id);
        VerdictsAreOfTheirInstant(refresh, start, init, id);
        var n: nat :| GivenAt(refresh, start, init, n, id, s.procs[id].at);
        assert init[..n] == moves[..n];
        assert GivenAt(refresh, start, moves, n, id, t.procs[id].at);
      } else {
        VerdictIsFitting(refresh, s, m, id);
        assert GivenAt(refresh, start, moves, |init|, id, t.procs[id].at);
      }
    }
  }

  /** The key set changes only when a verification that holds the lock installs what it fetched. */
  lemma OnlyFetchesChangeKeys(refresh: nat, s: State, m: Move)
    requires Invariant(refresh, s) && Step(refresh, s, m).held != s.held
    ensures m.Act? && s.holder == Some(m.id) && m.id in s.procs && s.procs[m.id].at.Installing?
    ensures Step(refresh, s, m).held == s.held + [s.procs[m.id].at.fetched]
    ensures Step(refresh, s, m).fetchedAt == s.now
  {
  }

  /** A known key that no new set has dropped is never refused for being missing. */
  lemma KnownKeyIsFound(refresh: nat, s: State, id: nat, valid: bool)
    requires Invariant(refresh, s) && id in s.procs && s.procs[id].at.Deciding?
    requires s.procs[id].known && s.procs[id].since == |s.held|
    ensures Step(refresh, s, Act(id, None, valid)).procs[id].at
         == if valid then Passed(|s.held| - 1) else Denied(TokenInvalid(|s.held| - 1))
  {
  }
}
