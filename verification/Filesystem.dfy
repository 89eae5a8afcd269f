/**
 The filesystem store: uploads of one blob run at once, step by step, and any
 step may fail. Together they are one atomic put-if-absent, and no reader ever
 sees part of a file.
 */
module Filesystem {
  import opened Encoding
  import opened Digests

  // Where a blob lives.

  function Decimal(n: nat): (text: string)
    ensures text != []
  {
    if n < 10 then ['0' + n as char] else Decimal(n / 10) + ['0' + (n % 10) as char]
  }

  function FromDecimal(text: string): nat
    requires forall i | 0 <= i < |text| :: '0' <= text[i] <= '9'
  {
    if text == [] then 0
    else 10 * FromDecimal(text[..|text| - 1]) + (text[|text| - 1] as int - '0' as int)
  }

  lemma {:induction false} DecimalReads(n: nat)
    ensures forall i | 0 <= i < |Decimal(n)| :: '0' <= Decimal(n)[i] <= '9'
    ensures FromDecimal(Decimal(n)) == n
  {
    if n < 10 {
      assert Decimal(n)[..0] == [];
    } else {
      DecimalReads(n / 10);
      assert Decimal(n)[..|Decimal(n)| - 1] == Decimal(n / 10);
    }
  }

  /** Algorithm, the hash's first two digits, the hash, and the size; only valid digests have a place. */
  function PathOf(d: Digest): Option<seq<string>> {
    if ValidDigest(d) then Some(["blobs", d.algorithm, d.hash[..2], d.hash, Decimal(d.size)]) else None
  }

  /** Two blobs never share a file. */
  lemma PathsAreDistinct(a: Digest, b: Digest)
    requires PathOf(a).Some? && PathOf(a) == PathOf(b)
    ensures a == b
  {
    var pa, pb := PathOf(a).value, PathOf(b).value;
    assert pa[1] == pb[1] && pa[3] == pb[3] && pa[4] == pb[4];
    DecimalReads(a.size);
    DecimalReads(b.size);
  }

  // The protocol on one blob's path.

  /** An upload: what it wants to store and how far it has come; a staging file holds the bytes copied so far. */
  datatype Put = Put(source: Bytes, at: Stage)

  datatype Stage =
    | Checking
    | MakingDirectory
    | Staging
    | Copying(staged: Bytes)
    | Syncing(staged: Bytes)
    | Persisting(staged: Bytes)
    | Returned(outcome: PutOutcome)
    | Errored

  /** A download: it opens the file once and then reads on in it. */
  datatype Get = Opening | Streaming(file: Bytes, read: Bytes) | Whole(bytes: Bytes) | NotFound

  datatype State = State(destination: Option<Bytes>, puts: map<nat, Put>, gets: map<nat, Get>)

  /** `fails` makes the step an error, which drops the staging file; `more` is how much is copied or read. */
  datatype Move =
    | Upload(id: nat, source: Bytes)
    | StepPut(id: nat, fails: bool, more: nat)
    | Download(id: nat)
    | StepGet(id: nat, more: nat)

  /** One step of an upload on the destination. */
  function PutStep(destination: Option<Bytes>, p: Put, fails: bool, more: nat): (Option<Bytes>, Put) {
    if p.at.Returned? || p.at.Errored? then (destination, p)
    else if fails then (destination, p.(at := Errored))
    else
      match p.at
      case Checking =>
        (destination, p.(at := if destination.Some? then Returned(AlreadyExists) else MakingDirectory))
      case MakingDirectory => (destination, p.(at := Staging))
      case Staging => (destination, p.(at := Copying([])))
      case Copying(staged) =>
        if |staged| >= |p.source| then (destination, p.(at := Syncing(staged)))
        else (destination, p.(at := Copying(p.source[..Min(|staged| + more, |p.source|)])))
      case Syncing(staged) => (destination, p.(at := Persisting(staged)))
      case Persisting(staged) =>
        if destination.Some? then (destination, p.(at := Returned(AlreadyExists)))
        else (Some(staged), p.(at := Returned(Created)))
      case _ => (destination, p)
  }

  function GetStep(destination: Option<Bytes>, g: Get, more: nat): Get {
    match g
    case Opening => if destination.Some? then Streaming(destination.value, []) else NotFound
    case Streaming(file, read) =>
      if |read| >= |file| then Whole(read) else Streaming(file, file[..Min(|read| + more, |file|)])
    case _ => g
  }

  function Step(s: State, m: Move): State {
    match m
    case Upload(id, source) => if id in s.puts then s else s.(puts := s.puts[id := Put(source, Checking)])
    case StepPut(id, fails, more) =>
      if id !in s.puts then s
      else
        var (destination, p) := PutStep(s.destination, s.puts[id], fails, more);
        s.(destination := destination, puts := s.puts[id := p])
    case Download(id) => if id in s.gets then s else s.(gets := s.gets[id := Opening])
    case StepGet(id, more) =>
      if id !in s.gets then s else s.(gets := s.gets[id := GetStep(s.destination, s.gets[id], more)])
  }

  function Run(before: Option<Bytes>, moves: seq<Move>): State {
    if moves == [] then State(before, map[], map[])
    else Step(Run(before, moves[..|moves| - 1]), moves[|moves| - 1])
  }

  // The atomic operation it should look like.

  function PutIfAbsent(destination: Option<Bytes>, source: Bytes): (Option<Bytes>, PutOutcome) {
    match destination
    case Some(_) => (destination, AlreadyExists)
    case None => (Some(source), Created)
  }

  /** What is staged is the beginning of the source, and all of it once the copy is done. */
  predicate StagedRight(p: Put) {
    match p.at
    case Copying(staged) => staged <= p.source
    case Syncing(staged) => staged == p.source
    case Persisting(staged) => staged == p.source
    case _ => true
  }

  /**
   A step that returns does what the atomic put would do at that instant; every
   other step leaves the destination alone.
   */
  lemma StepsRefinePutIfAbsent(destination: Option<Bytes>, p: Put, fails: bool, more: nat)
    requires StagedRight(p)
    ensures var (after, q) := PutStep(destination, p, fails, more);
            && StagedRight(q) && q.source == p.source
            && (q.at.Returned? && !p.at.Returned? ==>
                  (after, q.at.outcome) == PutIfAbsent(destination, p.source))
            && (p.at.Returned? ==> q.at == p.at)
            && (!q.at.Returned? || p.at.Returned? ==> after == destination)
  {
  }

  function CreatedBy(puts: map<nat, Put>): set<nat> {
    set id | id in puts && puts[id].at == Returned(Created)
  }

  /** Everything there is to know of a reachable state. */
  ghost predicate Invariant(before: Option<Bytes>, s: State) {
    && (forall id | id in s.puts :: StagedRight(s.puts[id]))
    && (before.Some? ==> s.destination == before && CreatedBy(s.puts) == {})
    && (before.None? && s.destination.None? ==> CreatedBy(s.puts) == {})
    && (before.None? && s.destination.Some? ==>
          exists id :: id in s.puts && CreatedBy(s.puts) == {id} && s.puts[id].source == s.destination.value)
    && (forall id | id in s.gets && s.gets[id].Streaming? ::
          s.destination == Some(s.gets[id].file) && s.gets[id].read <= s.gets[id].file)
    && (forall id | id in s.gets && s.gets[id].Whole? :: s.destination == Some(s.gets[id].bytes))
    && (forall id | id in s.puts && s.puts[id].at == Returned(AlreadyExists) :: s.destination.Some?)
  }

  lemma ReadAll(file: Bytes, read: Bytes)
    requires read <= file && |read| >= |file|
    ensures read == file
  {
  }

  lemma PutKeeps(before: Option<Bytes>, s: State, id: nat, fails: bool, more: nat)
    requires Invariant(before, s) && id in s.puts
    ensures Invariant(before, Step(s, StepPut(id, fails, more)))
  {
    var t := Step(s, StepPut(id, fails, more));
    StepsRefinePutIfAbsent(s.destination, s.puts[id], fails, more);
    if t.puts[id].at == Returned(Created) && s.puts[id].at != Returned(Created) {
      assert CreatedBy(t.puts) == CreatedBy(s.puts) + {id};
    } else {
      assert CreatedBy(t.puts) == CreatedBy(s.puts);
    }
  }

  lemma StepKeeps(before: Option<Bytes>, s: State, m: Move)
    requires Invariant(before, s)
    ensures Invariant(before, Step(s, m))
    ensures s.destination.Some? ==> Step(s, m).destination == s.destination
  {
    if m.StepPut? && m.id in s.puts {
      PutKeeps(before, s, m.id, m.fails, m.more);
    } else if m.Upload? {
      assert CreatedBy(Step(s, m).puts) == CreatedBy(s.puts);
    } else if m.StepGet? && m.id in s.gets && s.gets[m.id].Streaming?
              && |s.gets[m.id].read| >= |s.gets[m.id].file| {
      ReadAll(s.gets[m.id].file, s.gets[m.id].read);
    }
  }

  lemma {:induction false} EveryRun(before: Option<Bytes>, moves: seq<Move>)
    ensures Invariant(before, Run(before, moves))
  {
    if moves == [] {
      assert CreatedBy(Run(before, moves).puts) == {};
    } else {
      EveryRun(before, moves[..|moves| - 1]);
      StepKeeps(before, Run(before, moves[..|moves| - 1]), moves[|moves| - 1]);
    }
  }

  /** Once present the file never changes, whatever runs on. */
  lemma {:induction false} FileIsImmutable(before: Option<Bytes>, moves: seq<Move>, more: seq<Move>)
    requires Run(before, moves).destination.Some?
    ensures Run(before, moves + more).destination == Run(before, moves).destination
    decreases |more|
  {
    if more == [] {
      assert moves + more == moves;
    } else {
      var init := more[..|more| - 1];
      FileIsImmutable(before, moves, init);
      assert (moves + more)[..|moves + more| - 1] == moves + init;
      EveryRun(before, moves + init);
      StepKeeps(before, Run(before, moves + init), more[|more| - 1]);
    }
  }

  /**
   In every interleaving: at most one upload is told it created the file, and
   then the file is its complete source; an upload told that it exists finds
   it there; and a download that ends has the whole file or nothing.
   */
  lemma PutsAreAtomic(before: Option<Bytes>, moves: seq<Move>)
    ensures var s := Run(before, moves);
            && (forall a, b | a in s.puts && b in s.puts && s.puts[a].at == s.puts[b].at == Returned(Created) :: a == b)
            && (forall a | a in s.puts && s.puts[a].at == Returned(Created) ::
                  before.None? && s.destination == Some(s.puts[a].source))
            && (forall a | a in s.puts && s.puts[a].at == Returned(AlreadyExists) :: s.destination.Some?)
            && (forall g | g in s.gets && s.gets[g].Whole? :: s.destination == Some(s.gets[g].bytes))
            && (forall g | g in s.gets && s.gets[g].Streaming? :: s.gets[g].read <= s.gets[g].file)
            && (s.destination.Some? && before.None? ==> exists a :: a in s.puts && s.destination == Some(s.puts[a].source))
  {
    EveryRun(before, moves);
    var s := Run(before, moves);
    forall a | a in s.puts && s.puts[a].at == Returned(Created) ensures a in CreatedBy(s.puts) {
    }
  }

  // What answers to: nothing found, and an error.

  /** Move `n` of the run opened download `g` while there was no file. */
  ghost predicate OpenedAbsent(before: Option<Bytes>, moves: seq<Move>, n: nat, g: nat) {
    && n < |moves| && moves[n].StepGet? && moves[n].id == g
    && var s := Run(before, moves[..n]);
       g in s.gets && s.gets[g].Opening? && s.destination.None?
  }

  /** A download answers that nothing is there only if nothing was when it looked. */
  lemma {:induction false} NotFoundMeansAbsent(before: Option<Bytes>, moves: seq<Move>, g: nat)
    requires g in Run(before, moves).gets && Run(before, moves).gets[g].NotFound?
    ensures exists n: nat :: OpenedAbsent(before, moves, n, g)
  {
    if moves != [] {
      var init, m := moves[..|moves| - 1], moves[|moves| - 1];
      var s := Run(before, init);
      if g in s.gets && s.gets[g].NotFound? {
        NotFoundMeansAbsent(before, init, g);
        var n: nat :| OpenedAbsent(before, init, n, g);
        assert init[..n] == moves[..n];
        assert OpenedAbsent(before, moves, n, g);
      } else {
        assert OpenedAbsent(before, moves, |init|, g);
      }
    }
  }

  /** Once the file is there, no download that has not been told otherwise yet ever will be. */
  lemma {:induction false} PresentFileIsRead(before: Option<Bytes>, moves: seq<Move>, more: seq<Move>, g: nat)
    requires Run(before, moves).destination.Some?
    requires g in Run(before, moves).gets ==> !Run(before, moves).gets[g].NotFound?
    ensures var s := Run(before, moves + more); g in s.gets ==> !s.gets[g].NotFound?
    decreases |more|
  {
    if more == [] {
      assert moves + more == moves;
    } else {
      var init := more[..|more| - 1];
      PresentFileIsRead(before, moves, init, g);
      FileIsImmutable(before, moves, init);
      assert (moves + more)[..|moves + more| - 1] == moves + init;
    }
  }

  /** Reading at least a byte a step, a download has the whole file after one step more than its length. */
  lemma {:induction false} ReadingEnds(destination: Option<Bytes>, file: Bytes, read: Bytes, sizes: seq<nat>)
    requires read <= file && |file| - |read| < |sizes|
    requires forall i | 0 <= i < |sizes| :: sizes[i] > 0
    ensures ReadOn(destination, Streaming(file, read), sizes) == Whole(file)
    decreases |sizes|
  {
    if |read| >= |file| {
      ReadAll(file, read);
      WholeStays(destination, file, sizes[1..]);
    } else {
      var next := file[..Min(|read| + sizes[0], |file|)];
      ReadingEnds(destination, file, next, sizes[1..]);
    }
  }

  function ReadOn(destination: Option<Bytes>, g: Get, sizes: seq<nat>): Get
    decreases |sizes|
  {
    if sizes == [] then g else ReadOn(destination, GetStep(destination, g, sizes[0]), sizes[1..])
  }

  lemma {:induction false} WholeStays(destination: Option<Bytes>, file: Bytes, sizes: seq<nat>)
    ensures ReadOn(destination, Whole(file), sizes) == Whole(file)
  {
    if sizes != [] {
      WholeStays(destination, file, sizes[1..]);
    }
  }

  /** Some step of the upload failed. */
  ghost predicate FailedAt(moves: seq<Move>, n: nat, id: nat) {
    n < |moves| && moves[n].StepPut? && moves[n].id == id && moves[n].fails
  }

  /** An upload ends in an error only if one of its steps failed. */
  lemma {:induction false} ErrorsComeFromFailures(before: Option<Bytes>, moves: seq<Move>, id: nat)
    requires id in Run(before, moves).puts && Run(before, moves).puts[id].at.Errored?
    ensures exists n: nat :: FailedAt(moves, n, id)
  {
    if moves != [] {
      var init := moves[..|moves| - 1];
      var s := Run(before, init);
      if id in s.puts && s.puts[id].at.Errored? {
        ErrorsComeFromFailures(before, init, id);
        var n: nat :| FailedAt(init, n, id);
        assert FailedAt(moves, n, id);
      } else {
        assert FailedAt(moves, |init|, id);
      }
    }
  }
}
