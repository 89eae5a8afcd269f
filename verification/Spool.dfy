/**
 The upload spool: permits of one KiB that bound the bytes all uploads hold on
 disk at once, in the real 64-bit and 32-bit arithmetic.
 */
module Spool {
  import opened Encoding

  const KIB := 1024
  const U32_LIMIT := 0x1_0000_0000

  /** The most permits the semaphore can have. */
  const MAX_PERMITS := (U64_LIMIT - 1) / 8

  function DivCeil(n: nat, d: nat): (q: nat)
    requires d > 0
    ensures n <= q * d < n + d
  {
    if n % d == 0 then n / d else n / d + 1
  }

  datatype Refusal = TooLarge | Full

  datatype Reservation = Unlimited | Held(permits: nat) | Refused(refusal: Refusal)

  /** Whether and with how many permits an upload of `bytes` is admitted when `free` are left. */
  function Admit(limited: bool, free: nat, bytes: U64): Reservation {
    if !limited then Unlimited
    else
      var permits := DivCeil(bytes, KIB);
      if permits >= U32_LIMIT then Refused(TooLarge)
      else if permits > free then Refused(Full)
      else Held(permits)
  }

  function TotalPermits(maxBytes: U64): nat {
    Min(Min(DivCeil(maxBytes, KIB), U64_LIMIT - 1), MAX_PERMITS)
  }

  /** The semaphore behind the budget; no budget when the configured size is zero. */
  class SpoolBudget {
    const limited: bool
    const total: nat
    var free: nat

    predicate Valid()
      reads this
    {
      free <= total
    }

    constructor (maxBytes: U64)
      ensures Valid() && limited == (maxBytes > 0) && total == free == TotalPermits(maxBytes)
    {
      limited := maxBytes > 0;
      total := TotalPermits(maxBytes);
      free := TotalPermits(maxBytes);
    }

    method Reserve(bytes: U64) returns (r: Reservation)
      requires Valid()
      modifies this`free
      ensures Valid() && r == Admit(limited, old(free), bytes)
      ensures free == if r.Held? then old(free) - r.permits else old(free)
    {
      if !limited {
        return Unlimited;
      }
      var permits := DivCeil(bytes, KIB);
      if permits >= U32_LIMIT {
        return Refused(TooLarge);
      }
      if permits > free {
        return Refused(Full);
      }
      free := free - permits;
      return Held(permits);
    }

    method Release(permits: nat)
      requires Valid() && free + permits <= total
      modifies this`free
      ensures Valid() && free == old(free) + permits
    {
      free := free + permits;
    }
  }

  /** No configurable budget is cut short by what a semaphore can hold. */
  lemma BudgetIsWhole(maxBytes: U64)
    ensures TotalPermits(maxBytes) == DivCeil(maxBytes, KIB)
    ensures TotalPermits(maxBytes) * KIB < maxBytes + KIB
  {
  }

  /** The check made at startup. */
  predicate StartupCheck(maxSpoolBytes: U64, maxBlobBytes: U64) {
    maxSpoolBytes == 0 || maxSpoolBytes >= maxBlobBytes
  }

  /**
   With the startup check passed and nothing held, a blob within the limit is
   admitted exactly when its KiB count fits 32 bits.
   */
  lemma IdleSpoolAdmits(maxSpoolBytes: U64, maxBlobBytes: U64, bytes: U64)
    requires StartupCheck(maxSpoolBytes, maxBlobBytes) && bytes <= maxBlobBytes
    ensures !Admit(maxSpoolBytes > 0, TotalPermits(maxSpoolBytes), bytes).Refused?
       <==> maxSpoolBytes == 0 || bytes <= (U32_LIMIT - 1) * KIB
  {
  }

  /** With this many permits free, a spool of this size takes a blob. */
  predicate MayAdmit(maxSpoolBytes: U64, free: nat, bytes: U64) {
    free <= TotalPermits(maxSpoolBytes) && !Admit(maxSpoolBytes > 0, free, bytes).Refused?
  }

  /**
   Without the check too: the largest blob is ever admitted exactly when its KiB
   count fits 32 bits and the count of the spool.
   */
  lemma LargestBlobExactly(maxSpoolBytes: U64, maxBlobBytes: U64)
    ensures (exists free: nat :: MayAdmit(maxSpoolBytes, free, maxBlobBytes))
       <==> maxSpoolBytes == 0
            || (DivCeil(maxBlobBytes, KIB) <= DivCeil(maxSpoolBytes, KIB) && DivCeil(maxBlobBytes, KIB) < U32_LIMIT)
  {
    BudgetIsWhole(maxSpoolBytes);
    if maxSpoolBytes == 0 || DivCeil(maxBlobBytes, KIB) <= DivCeil(maxSpoolBytes, KIB) {
      assert MayAdmit(maxSpoolBytes, TotalPermits(maxSpoolBytes), maxBlobBytes)
        <==> maxSpoolBytes == 0 || DivCeil(maxBlobBytes, KIB) < U32_LIMIT;
    }
  }

  /** Short of the same KiB, a spool that fails the check never takes the largest blob. */
  lemma FailedCheckRefuses(maxSpoolBytes: U64, maxBlobBytes: U64, free: nat)
    requires !StartupCheck(maxSpoolBytes, maxBlobBytes) && free <= TotalPermits(maxSpoolBytes)
    ensures !Admit(true, free, maxBlobBytes).Refused? ==> maxBlobBytes - maxSpoolBytes < KIB
  {
    BudgetIsWhole(maxSpoolBytes);
  }

  /** Within the same KiB it may: here the check refuses a configuration that would do. */
  lemma FailedCheckMayStillDo()
    ensures !StartupCheck(1, KIB) && Admit(true, TotalPermits(1), KIB) == Held(1)
  {
  }

  /** Nor is the check enough: a limited spool never takes a blob past 4 TiB. */
  lemma StartupCheckIsNotEnough()
    ensures var size := U32_LIMIT * KIB;
            StartupCheck(size, size) && Admit(true, TotalPermits(size), size) == Refused(TooLarge)
  {
  }

  // Uploads sharing the budget.

  /** A request, and a frame of it; a single blob is frame 0 of its request. */
  type UploadId = (nat, nat)

  /** One upload: what it declared, its permits, and its spooled file if there is one. */
  datatype Upload = Upload(declared: U64, permits: nat, file: Option<nat>)

  datatype State = State(limited: bool, total: nat, free: nat, uploads: map<UploadId, Upload>)

  datatype Move =
    | Reserve(id: UploadId, bytes: U64)
    | CreateFile(id: UploadId)
    | Write(id: UploadId, more: nat)
    | RemoveFile(id: UploadId)
    | Release(id: UploadId)

  function Start(maxBytes: U64): State {
    State(maxBytes > 0, TotalPermits(maxBytes), TotalPermits(maxBytes), map[])
  }

  /** What a move does, whether or not it should be made: files grow unchecked, and permits can go before their file. */
  function Step(s: State, m: Move): State {
    match m
    case Reserve(id, bytes) =>
      if id in s.uploads then s
      else (
        match Admit(s.limited, s.free, bytes)
        case Refused(_) => s
        case Unlimited => s.(uploads := s.uploads[id := Upload(bytes, 0, None)])
        case Held(permits) =>
          s.(free := s.free - permits, uploads := s.uploads[id := Upload(bytes, permits, None)]))
    case CreateFile(id) =>
      if id in s.uploads then s.(uploads := s.uploads[id := s.uploads[id].(file := Some(0))]) else s
    case Write(id, bytes) =>
      if id in s.uploads && s.uploads[id].file.Some?
      then s.(uploads := s.uploads[id := s.uploads[id].(file := Some(s.uploads[id].file.value + bytes))]) else s
    case RemoveFile(id) =>
      if id in s.uploads then s.(uploads := s.uploads[id := s.uploads[id].(file := None)]) else s
    case Release(id) =>
      if id !in s.uploads then s
      else
        var u, rest := s.uploads[id], s.(free := s.free + s.uploads[id].permits);
        if u.file.None? then rest.(uploads := s.uploads - {id})
        else rest.(uploads := s.uploads[id := u.(permits := 0)])
  }

  /**
   What an upload owes the others: to reserve first, to write no more than it
   declared, and to remove its file before it lets go of its permits.
   */
  predicate Allowed(s: State, m: Move) {
    match m
    case Reserve(id, _) => id !in s.uploads
    case CreateFile(id) => id in s.uploads && s.uploads[id].file.None?
    case Write(id, bytes) =>
      id in s.uploads && s.uploads[id].file.Some? && s.uploads[id].file.value + bytes <= s.uploads[id].declared
    case RemoveFile(id) => id in s.uploads
    case Release(id) => id in s.uploads && s.uploads[id].file.None?
  }

  function Apply(s: State, moves: seq<Move>): State {
    if moves == [] then s else Step(Apply(s, moves[..|moves| - 1]), moves[|moves| - 1])
  }

  predicate AllAllowed(s: State, moves: seq<Move>) {
    moves == [] ||
    (AllAllowed(s, moves[..|moves| - 1]) && Allowed(Apply(s, moves[..|moves| - 1]), moves[|moves| - 1]))
  }

  function OnDisk(u: Upload): nat {
    if u.file.Some? then u.file.value else 0
  }

  ghost function Pick(s: set<UploadId>): (x: UploadId)
    requires s != {}
    ensures x in s
  {
    var x :| x in s;
    x
  }

  /** The sum of a measure over a set of uploads. */
  ghost function Sum(uploads: map<UploadId, Upload>, ids: set<UploadId>, f: Upload -> nat): nat
    requires ids <= uploads.Keys
    decreases |ids|
  {
    if ids == {} then 0 else var id := Pick(ids); f(uploads[id]) + Sum(uploads, ids - {id}, f)
  }

  lemma {:induction false} SumRemove(uploads: map<UploadId, Upload>, ids: set<UploadId>, f: Upload -> nat, id: UploadId)
    requires ids <= uploads.Keys && id in ids
    ensures Sum(uploads, ids, f) == f(uploads[id]) + Sum(uploads, ids - {id}, f)
    decreases |ids|
  {
    var first := Pick(ids);
    if first != id {
      SumRemove(uploads, ids - {first}, f, id);
      SumRemove(uploads, ids - {id}, f, first);
      assert ids - {first} - {id} == ids - {id} - {first};
    }
  }

  lemma {:induction false} SumAgrees(a: map<UploadId, Upload>, b: map<UploadId, Upload>, ids: set<UploadId>, f: Upload -> nat)
    requires ids <= a.Keys && ids <= b.Keys
    requires forall id | id in ids :: f(a[id]) == f(b[id])
    ensures Sum(a, ids, f) == Sum(b, ids, f)
    decreases |ids|
  {
    if ids != {} {
      SumAgrees(a, b, ids - {Pick(ids)}, f);
    }
  }

  lemma {:induction false} SumBound(uploads: map<UploadId, Upload>, ids: set<UploadId>, f: Upload -> nat, g: Upload -> nat)
    requires ids <= uploads.Keys
    requires forall id | id in ids :: f(uploads[id]) <= KIB * g(uploads[id])
    ensures Sum(uploads, ids, f) <= KIB * Sum(uploads, ids, g)
    decreases |ids|
  {
    if ids != {} {
      SumBound(uploads, ids - {Pick(ids)}, f, g);
    }
  }

  ghost function HeldPermits(s: State): nat {
    Sum(s.uploads, s.uploads.Keys, (u: Upload) => u.permits)
  }

  ghost function SpooledBytes(s: State): nat {
    Sum(s.uploads, s.uploads.Keys, OnDisk)
  }

  /** Each upload writes no more than it declared, and holds permits for all of it. */
  ghost predicate Covered(s: State) {
    forall id | id in s.uploads ::
      && OnDisk(s.uploads[id]) <= s.uploads[id].declared
      && (s.limited ==> s.uploads[id].declared <= s.uploads[id].permits * KIB)
  }

  ghost predicate Conserved(s: State) {
    s.free + HeldPermits(s) == s.total
  }

  lemma StepCovered(s: State, m: Move)
    requires Covered(s) && Allowed(s, m)
    ensures Covered(Step(s, m))
  {
  }

  function PermitsOf(s: State, id: UploadId): nat {
    if id in s.uploads then s.uploads[id].permits else 0
  }

  ghost function HeldByOthers(s: State, id: UploadId): nat {
    Sum(s.uploads, s.uploads.Keys - {id}, (u: Upload) => u.permits)
  }

  lemma HeldSplits(s: State, id: UploadId)
    ensures HeldPermits(s) == PermitsOf(s, id) + HeldByOthers(s, id)
  {
    if id in s.uploads {
      SumRemove(s.uploads, s.uploads.Keys, (u: Upload) => u.permits, id);
    } else {
      assert s.uploads.Keys - {id} == s.uploads.Keys;
    }
  }

  /** A move touches its own upload only. */
  lemma OthersHold(s: State, m: Move)
    ensures HeldByOthers(Step(s, m), m.id) == HeldByOthers(s, m.id)
  {
    var t := Step(s, m);
    assert s.uploads.Keys - {m.id} == t.uploads.Keys - {m.id};
    SumAgrees(s.uploads, t.uploads, s.uploads.Keys - {m.id}, (u: Upload) => u.permits);
  }

  lemma StepConserved(s: State, m: Move)
    requires Conserved(s) && UnlimitedHoldsNothing(s)
    ensures Conserved(Step(s, m)) && UnlimitedHoldsNothing(Step(s, m))
  {
    HeldSplits(s, m.id);
    HeldSplits(Step(s, m), m.id);
    OthersHold(s, m);
    hide HeldPermits;
    hide HeldByOthers;
  }

  predicate UnlimitedHoldsNothing(s: State) {
    !s.limited ==> forall id | id in s.uploads :: s.uploads[id].permits == 0
  }

  ghost predicate Sound(s: State) {
    Covered(s) && Conserved(s) && UnlimitedHoldsNothing(s)
  }

  lemma {:induction false} AllowedKeeps(s: State, moves: seq<Move>)
    requires Sound(s) && AllAllowed(s, moves)
    ensures Sound(Apply(s, moves)) && Apply(s, moves).limited == s.limited && Apply(s, moves).total == s.total
  {
    if moves != [] {
      AllowedKeeps(s, moves[..|moves| - 1]);
      StepCovered(Apply(s, moves[..|moves| - 1]), moves[|moves| - 1]);
      StepConserved(Apply(s, moves[..|moves| - 1]), moves[|moves| - 1]);
    }
  }

  lemma {:induction false} ApplyConcat(s: State, a: seq<Move>, b: seq<Move>)
    ensures Apply(s, a + b) == Apply(Apply(s, a), b)
    ensures AllAllowed(s, a + b) <==> AllAllowed(s, a) && AllAllowed(Apply(s, a), b)
    decreases |b|
  {
    if b == [] {
      assert a + b == a;
    } else {
      ApplyConcat(s, a, b[..|b| - 1]);
      assert (a + b)[..|a + b| - 1] == a + b[..|b| - 1];
    }
  }

  lemma StartSound(maxBytes: U64)
    ensures Sound(Start(maxBytes))
  {
  }

  /** The bound on any sound state of a spool of this size. */
  ghost predicate Bounded(maxBytes: U64, s: State) {
    && s.free + HeldPermits(s) == TotalPermits(maxBytes)
    && (s.uploads == map[] ==> s.free == TotalPermits(maxBytes))
    && (maxBytes > 0 ==> SpooledBytes(s) <= KIB * HeldPermits(s) <= KIB * DivCeil(maxBytes, KIB))
  }

  lemma SoundIsBounded(maxBytes: U64, s: State)
    requires Sound(s) && s.limited == (maxBytes > 0) && s.total == TotalPermits(maxBytes)
    ensures Bounded(maxBytes, s)
  {
    BudgetIsWhole(maxBytes);
    if maxBytes > 0 {
      SumBound(s.uploads, s.uploads.Keys, OnDisk, (u: Upload) => u.permits);
    }
  }

  /**
   In every interleaving of uploads that do what they owe each other: free and
   held permits make up the total, all of them are back when no upload is left,
   and the bytes on disk never exceed what is reserved nor the budget rounded up
   to a KiB.
   */
  lemma SpoolIsBounded(maxBytes: U64, moves: seq<Move>)
    requires AllAllowed(Start(maxBytes), moves)
    ensures Bounded(maxBytes, Apply(Start(maxBytes), moves))
  {
    StartSound(maxBytes);
    AllowedKeeps(Start(maxBytes), moves);
    SoundIsBounded(maxBytes, Apply(Start(maxBytes), moves));
  }

  /** Letting go of permits before the file is gone would break the bound. */
  lemma PermitsFirstWouldNotDo(size: U64)
    requires 0 < size <= (U32_LIMIT - 1) * KIB
    ensures var spooled := Step(Step(Step(Start(size), Reserve((0, 0), size)), CreateFile((0, 0))), Write((0, 0), size));
            var s := Step(spooled, Release((0, 0)));
            s.free == s.total && s.uploads[(0, 0)].file == Some(size)
  {
    BudgetIsWhole(size);
  }
}
