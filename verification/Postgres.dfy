/**
 The PostgreSQL metadata store, each statement one step on tables keyed by
 their primary keys. It answers like the in-memory store.
 */
module Postgres {
  import opened Encoding
  import opened Digests
  import opened Clock
  import opened Memory

  const I64_LIMIT := 0x8000_0000_0000_0000

  type I64 = x: int | -I64_LIMIT <= x < I64_LIMIT

  /** Rust's `as i64`, which wraps. */
  function AsI64(n: U64): I64 {
    if n < I64_LIMIT then n else n - U64_LIMIT
  }

  predicate Representable(d: Digest) {
    d.size < I64_LIMIT
  }

  /** The columns of every primary key. */
  datatype RowKey = RowKey(ns: Namespace, algorithm: string, hash: string, size: I64)

  datatype BlobRow = BlobRow(createdAt: Time, accessedAt: Time)

  datatype ManifestRow = ManifestRow(record: ManifestRecord, updatedAt: Time)

  datatype Tables = Tables(
    blobs: map<RowKey, BlobRow>, results: map<RowKey, ActionResult>, manifests: map<RowKey, ManifestRow>)

  function KeyOf(ns: Namespace, d: Digest): RowKey {
    RowKey(ns, d.algorithm, d.hash, AsI64(d.size))
  }

  /** What the tables' constraints let in. */
  predicate Permitted(k: RowKey) {
    k.size >= 0 && (k.algorithm == "blake3" || k.algorithm == "sha256")
  }

  ghost predicate ValidTables(t: Tables) {
    && (forall k | k in t.blobs :: Permitted(k))
    && (forall k | k in t.results :: Permitted(k))
    && (forall k | k in t.manifests :: Permitted(k) && k.algorithm == "blake3")
  }

  // Batched queries.

  /** The digests whose size the database can hold, with that size. */
  function RepresentableDigests(digests: seq<Digest>): seq<(Digest, I64)> {
    if digests == [] then []
    else if Representable(digests[0]) then [(digests[0], digests[0].size)] + RepresentableDigests(digests[1..])
    else RepresentableDigests(digests[1..])
  }

  /** The rows one requested digest joins with. */
  function Joined<V>(rows: map<RowKey, V>, ns: Namespace, requested: (Digest, I64)): set<RowKey> {
    set k | k in rows && k.ns == ns
            && k.algorithm == requested.0.algorithm && k.hash == requested.0.hash && k.size == requested.1
  }

  function Repeat(n: nat, times: nat): seq<nat> {
    if times == 0 then [] else [n] + Repeat(n, times - 1)
  }

  /** The query's answer: the 1-based place of each requested digest, once for every row it joins with. */
  function JoinOrdinals(rows: map<RowKey, BlobRow>, ns: Namespace, requested: seq<(Digest, I64)>, from: nat): seq<nat>
    requires from <= |requested|
    decreases |requested| - from
  {
    if from == |requested| then []
    else Repeat(from + 1, |Joined(rows, ns, requested[from])|) + JoinOrdinals(rows, ns, requested, from + 1)
  }

  /** Turn places back into digests; nothing for a place that was never requested. */
  function FromOrdinals(requested: seq<(Digest, I64)>, ordinals: seq<nat>): Option<seq<Digest>> {
    if ordinals == [] then Some([])
    else if !(1 <= ordinals[0] <= |requested|) then None
    else
      match FromOrdinals(requested, ordinals[1..])
      case None => None
      case Some(rest) => Some([requested[ordinals[0] - 1].0] + rest)
  }

  function QueryVisible(t: Tables, ns: Namespace, digests: seq<Digest>): Option<seq<Digest>> {
    var requested := RepresentableDigests(digests);
    if requested == [] then Some([]) else FromOrdinals(requested, JoinOrdinals(t.blobs, ns, requested, 0))
  }

  function Get(t: Tables, ns: Namespace, action: Digest): Option<ActionResult> {
    var k := KeyOf(ns, action);
    if k in t.results then Some(t.results[k]) else None
  }

  /** What one requested action finds: at most one row, since the columns compared are the key. */
  function Probe(t: Tables, ns: Namespace, requested: (Digest, I64)): Option<ActionResult> {
    var k := RowKey(ns, requested.0.algorithm, requested.0.hash, requested.1);
    if k in t.results then Some(t.results[k]) else None
  }

  /** The values of the rows that are not null, in order. */
  function Values(t: Tables, ns: Namespace, requested: seq<(Digest, I64)>): seq<ActionResult> {
    if requested == [] then []
    else
      var rest := Values(t, ns, requested[1..]);
      match Probe(t, ns, requested[0])
      case Some(r) => [r] + rest
      case None => rest
  }

  function QueryBatch(t: Tables, ns: Namespace, actions: seq<Digest>): seq<ActionResult> {
    Values(t, ns, RepresentableDigests(actions))
  }

  // Statements that change tables.

  /** A new row is as old as now; one that is there gets younger only when the put wrote the object. */
  function Upsert(blobs: map<RowKey, BlobRow>, now: Time, k: RowKey, stored: PutOutcome): map<RowKey, BlobRow> {
    if k !in blobs then blobs[k := BlobRow(now, now)]
    else blobs[k := BlobRow(if stored.Created? then now else blobs[k].createdAt, now)]
  }

  /** Nothing when a constraint of the table refuses the row. */
  function RegisterBlob(t: Tables, now: Time, ns: Namespace, d: Digest, stored: PutOutcome): Option<Tables> {
    if !Permitted(KeyOf(ns, d)) then None else Some(t.(blobs := Upsert(t.blobs, now, KeyOf(ns, d), stored)))
  }

  function ForgetBlob(t: Tables, ns: Namespace, d: Digest): Tables {
    t.(blobs := t.blobs - {KeyOf(ns, d)})
  }

  /** The first statement of a commit: insert unless the key is taken. */
  function InsertResult(t: Tables, ns: Namespace, action: Digest, r: ActionResult): Option<(Tables, bool)> {
    var k := KeyOf(ns, action);
    if !Permitted(k) then None
    else if k in t.results then Some((t, false))
    else Some((t.(results := t.results[k := r]), true))
  }

  /** A commit that nothing comes between. */
  function Commit(t: Tables, ns: Namespace, action: Digest, r: ActionResult): Option<(Tables, CommitOutcome)> {
    match InsertResult(t, ns, action, r)
    case None => None
    case Some((next, true)) => Some((next, CommitOutcome.Created))
    case Some((next, false)) =>
      match Get(next, ns, action)
      case None => None
      case Some(existing) => Some((next, if existing == r then CommitOutcome.AlreadyExists else Conflict))
  }

  function CommitManifest(
    t: Tables, now: Time, ns: Namespace, key: Digest, expected: Option<string>, record: ManifestRecord)
    : Option<(Tables, ManifestOutcome)>
  {
    var k := KeyOf(ns, key);
    match expected
    case Some(tag) =>
      if k in t.manifests && t.manifests[k].record.etag == tag
      then Some((t.(manifests := t.manifests[k := ManifestRow(record, now)]), Updated))
      else Some((t, PreconditionFailed))
    case None =>
      if !Permitted(k) || k.algorithm != "blake3" then None
      else if k in t.manifests then Some((t, PreconditionFailed))
      else Some((t.(manifests := t.manifests[k := ManifestRow(record, now)]), ManifestCreated))
  }

  // The database holds what the memory store would.

  /** Row for row the same contents. */
  ghost predicate Mirrors(t: Tables, m: map<Key, ActionResult>, blobs: set<Key>, manifests: map<Key, ManifestRecord>) {
    && ValidTables(t)
    && (forall ns, d: Digest :: (ns, d) in blobs <==> KeyOf(ns, d) in t.blobs)
    && (forall ns, d: Digest :: Lookup(m, (ns, d)) == Get(t, ns, d))
    && (forall ns, d: Digest :: Lookup(manifests, (ns, d)) == GetManifest(t, ns, d))
  }

  function GetManifest(t: Tables, ns: Namespace, key: Digest): Option<ManifestRecord> {
    var k := KeyOf(ns, key);
    if k in t.manifests then Some(t.manifests[k].record) else None
  }

  /** A wrapped size is negative, so it is never another digest's row nor any row at all. */
  lemma KeysAreDistinct(ns: Namespace, a: Digest, other: Namespace, b: Digest)
    requires KeyOf(ns, a) == KeyOf(other, b)
    ensures ns == other && a == b
    ensures KeyOf(ns, a).size >= 0 <==> Representable(a)
  {
  }

  lemma JoinedAtMostOnce<V>(rows: map<RowKey, V>, ns: Namespace, requested: (Digest, I64))
    ensures var k := RowKey(ns, requested.0.algorithm, requested.0.hash, requested.1);
            Joined(rows, ns, requested) == if k in rows then {k} else {}
  {
  }

  /** One more digest at the front of a request shifts every place by one. */
  lemma {:induction false} OrdinalsShift(rows: map<RowKey, BlobRow>, ns: Namespace, requested: seq<(Digest, I64)>, from: nat)
    requires from <= |requested|
    ensures FromOrdinals(requested, JoinOrdinals(rows, ns, requested, from))
         == Some(JoinedDigests(rows, ns, requested[from..]))
    decreases |requested| - from
  {
    if from < |requested| {
      OrdinalsShift(rows, ns, requested, from + 1);
      JoinedAtMostOnce(rows, ns, requested[from]);
      var n, rest := |Joined(rows, ns, requested[from])|, JoinOrdinals(rows, ns, requested, from + 1);
      assert n <= 1;
      assert requested[from..][1..] == requested[from + 1..];
      if n == 1 {
        assert Repeat(from + 1, 1) == [from + 1] + [];
        assert ([from + 1] + rest)[1..] == rest;
      } else {
        assert [] + rest == rest;
      }
    }
  }

  /** The requested digests that have a row. */
  function JoinedDigests(rows: map<RowKey, BlobRow>, ns: Namespace, requested: seq<(Digest, I64)>): seq<Digest> {
    if requested == [] then []
    else if RowKey(ns, requested[0].0.algorithm, requested[0].0.hash, requested[0].1) in rows
    then [requested[0].0] + JoinedDigests(rows, ns, requested[1..])
    else JoinedDigests(rows, ns, requested[1..])
  }

  lemma {:induction false} JoinedAreVisible(
    t: Tables, m: map<Key, ActionResult>, blobs: set<Key>, manifests: map<Key, ManifestRecord>,
    ns: Namespace, digests: seq<Digest>)
    requires Mirrors(t, m, blobs, manifests)
    ensures JoinedDigests(t.blobs, ns, RepresentableDigests(digests)) == VisibleBlobs(blobs, ns, digests)
  {
    if digests != [] {
      JoinedAreVisible(t, m, blobs, manifests, ns, digests[1..]);
      var d, rest := digests[0], RepresentableDigests(digests[1..]);
      assert (ns, d) in blobs <==> KeyOf(ns, d) in t.blobs;
      if Representable(d) {
        assert ([(d, AsI64(d.size))] + rest)[1..] == rest;
      }
    }
  }

  /** The joined query finds the visible digests, in order and with repetitions, for sizes of any width. */
  lemma VisibleAnswersAlike(
    t: Tables, m: map<Key, ActionResult>, blobs: set<Key>, manifests: map<Key, ManifestRecord>,
    ns: Namespace, digests: seq<Digest>)
    requires Mirrors(t, m, blobs, manifests)
    ensures QueryVisible(t, ns, digests) == Some(VisibleBlobs(blobs, ns, digests))
  {
    var requested := RepresentableDigests(digests);
    OrdinalsShift(t.blobs, ns, requested, 0);
    assert requested[0..] == requested;
    JoinedAreVisible(t, m, blobs, manifests, ns, digests);
  }

  lemma GetEachFront(get: Digest -> Option<ActionResult>, d: Digest, actions: seq<Digest>)
    ensures GetEach(get, [d] + actions)
         == (match get(d) case Some(r) => [r] case None => []) + GetEach(get, actions)
  {
    if actions == [] {
      assert ([d] + actions)[..0] == [];
      assert [d] + actions == [d];
    } else {
      assert ([d] + actions)[..|actions|] == [d] + actions[..|actions| - 1];
      GetEachFront(get, d, actions[..|actions| - 1]);
    }
  }

  /** One round trip answers like a loop of single lookups, misses dropped, repetitions and order kept. */
  lemma {:induction false} BatchIsTheLoop(t: Tables, ns: Namespace, actions: seq<Digest>)
    requires ValidTables(t)
    ensures QueryBatch(t, ns, actions) == GetEach(d => Get(t, ns, d), actions)
  {
    var get := d => Get(t, ns, d);
    if actions != [] {
      var d, rest := actions[0], actions[1..];
      BatchIsTheLoop(t, ns, rest);
      assert GetEach(get, rest) == GetEach(d => Get(t, ns, d), rest);
      GetEachFront(get, d, rest);
      assert [d] + rest == actions;
      if Representable(d) {
        assert ([(d, AsI64(d.size))] + RepresentableDigests(rest))[1..] == RepresentableDigests(rest);
      } else {
        assert get(d) == None;
      }
    }
  }

  /**
   Registering, forgetting and committing keep the two stores alike and answer
   alike, except that the database refuses a digest its columns cannot hold.
   */
  lemma RegisterAlike(
    t: Tables, m: map<Key, ActionResult>, blobs: set<Key>, manifests: map<Key, ManifestRecord>,
    now: Time, ns: Namespace, d: Digest, stored: PutOutcome)
    requires Mirrors(t, m, blobs, manifests) && ValidDigest(d)
    ensures RegisterBlob(t, now, ns, d, stored).Some? <==> Representable(d)
    ensures RegisterBlob(t, now, ns, d, stored).Some? ==>
              Mirrors(RegisterBlob(t, now, ns, d, stored).value, m, blobs + {(ns, d)}, manifests)
  {
    if Representable(d) {
      var next := RegisterBlob(t, now, ns, d, stored).value;
      forall other, e: Digest ensures (other, e) in blobs + {(ns, d)} <==> KeyOf(other, e) in next.blobs {
        if KeyOf(other, e) == KeyOf(ns, d) {
          KeysAreDistinct(other, e, ns, d);
        }
      }
      assert forall other, e: Digest :: Get(next, other, e) == Get(t, other, e);
      assert forall other, e: Digest :: GetManifest(next, other, e) == GetManifest(t, other, e);
    }
  }

  lemma ForgetAlike(
    t: Tables, m: map<Key, ActionResult>, blobs: set<Key>, manifests: map<Key, ManifestRecord>, ns: Namespace, d: Digest)
    requires Mirrors(t, m, blobs, manifests)
    ensures Mirrors(ForgetBlob(t, ns, d), m, blobs - {(ns, d)}, manifests)
  {
    var next := ForgetBlob(t, ns, d);
    forall other, e: Digest ensures (other, e) in blobs - {(ns, d)} <==> KeyOf(other, e) in next.blobs {
      if KeyOf(other, e) == KeyOf(ns, d) {
        KeysAreDistinct(other, e, ns, d);
      }
    }
    assert forall other, e: Digest :: Get(next, other, e) == Get(t, other, e);
    assert forall other, e: Digest :: GetManifest(next, other, e) == GetManifest(t, other, e);
  }

  lemma CommitAlike(
    t: Tables, m: map<Key, ActionResult>, blobs: set<Key>, manifests: map<Key, ManifestRecord>,
    ns: Namespace, d: Digest, r: ActionResult)
    requires Mirrors(t, m, blobs, manifests) && ValidDigest(d)
    ensures Commit(t, ns, d, r).Some? <==> Representable(d)
    ensures Commit(t, ns, d, r).Some? ==>
              var (next, outcome) := Commit(t, ns, d, r).value;
              var (entries, expected) := CommitTo(m, (ns, d), r);
              outcome == expected && Mirrors(next, entries, blobs, manifests)
  {
    assert Lookup(m, (ns, d)) == Get(t, ns, d);
    if Representable(d) {
      var next := Commit(t, ns, d, r).value.0;
      var entries := CommitTo(m, (ns, d), r).0;
      forall other, e: Digest ensures Lookup(entries, (other, e)) == Get(next, other, e) {
        assert Lookup(m, (other, e)) == Get(t, other, e);
        if KeyOf(other, e) == KeyOf(ns, d) {
          KeysAreDistinct(other, e, ns, d);
        }
      }
      assert forall other, e: Digest :: GetManifest(next, other, e) == GetManifest(t, other, e);
    }
  }

  /** With a tag expected both stores always agree; without one the database takes only keys its columns can hold. */
  lemma CommitManifestAlike(
    t: Tables, m: map<Key, ActionResult>, blobs: set<Key>, manifests: map<Key, ManifestRecord>,
    now: Time, ns: Namespace, d: Digest, expected: Option<string>, record: ManifestRecord)
    requires Mirrors(t, m, blobs, manifests) && ValidDigest(d)
    ensures CommitManifest(t, now, ns, d, expected, record).Some? <==>
              expected.Some? || (Representable(d) && d.algorithm == "blake3")
    ensures CommitManifest(t, now, ns, d, expected, record).Some? ==>
              var (next, outcome) := CommitManifest(t, now, ns, d, expected, record).value;
              var (records, promised) := CommitManifestTo(manifests, (ns, d), expected, record);
              outcome == promised && Mirrors(next, m, blobs, records)
  {
    assert Lookup(manifests, (ns, d)) == GetManifest(t, ns, d);
    if expected.Some? || (Representable(d) && d.algorithm == "blake3") {
      var next := CommitManifest(t, now, ns, d, expected, record).value.0;
      var records := CommitManifestTo(manifests, (ns, d), expected, record).0;
      forall other, e: Digest ensures Lookup(records, (other, e)) == GetManifest(next, other, e) {
        assert Lookup(manifests, (other, e)) == GetManifest(t, other, e);
        if KeyOf(other, e) == KeyOf(ns, d) {
          KeysAreDistinct(other, e, ns, d);
        }
      }
      assert forall other, e: Digest :: Get(next, other, e) == Get(t, other, e);
    }
  }

  // Sweeping.

  /** The digests whose loss makes a result useless. */
  function References(r: ActionResult): set<Digest> {
    (match r.metadata case Some(d) => {d} case None => {}) + (match r.outputRoot case Some(d) => {d} case None => {})
  }

  predicate Dangling(blobs: map<RowKey, BlobRow>, k: RowKey, r: ActionResult) {
    exists d | d in References(r) :: KeyOf(k.ns, d) !in blobs
  }

  datatype Swept = Swept(blobs: nat, results: nat, manifests: nat)

  function SweepBlobs(blobs: map<RowKey, BlobRow>, now: Time, age: nat): map<RowKey, BlobRow> {
    map k | k in blobs && !(blobs[k].createdAt + age < now) :: blobs[k]
  }

  function SweepResults(results: map<RowKey, ActionResult>, blobs: map<RowKey, BlobRow>): map<RowKey, ActionResult> {
    map k | k in results && !Dangling(blobs, k, results[k]) :: results[k]
  }

  function SweepManifests(manifests: map<RowKey, ManifestRow>, now: Time, age: nat): map<RowKey, ManifestRow> {
    map k | k in manifests && !(manifests[k].updatedAt + age < now) :: manifests[k]
  }

  lemma Shrinks<K, V>(before: map<K, V>, after: map<K, V>)
    requires after.Keys <= before.Keys
    ensures |after| <= |before|
  {
    assert |before.Keys - after.Keys| == |before.Keys| - |after.Keys|;
  }

  /** The sweep as one transaction. */
  function SweepTables(t: Tables, now: Time, age: nat): (Tables, Swept) {
    var blobs := SweepBlobs(t.blobs, now, age);
    var results := SweepResults(t.results, blobs);
    var manifests := SweepManifests(t.manifests, now, age);
    Shrinks(t.blobs, blobs);
    Shrinks(t.results, results);
    Shrinks(t.manifests, manifests);
    (Tables(blobs, results, manifests),
     Swept(|t.blobs| - |blobs|, |t.results| - |results|, |t.manifests| - |manifests|))
  }

  /**
   Exactly the rows and manifests young enough stay, exactly the results whose
   references all still have rows, and nothing that stays is changed.
   */
  ghost predicate SweptExactly(t: Tables, after: Tables, now: Time, age: nat) {
    && (forall k :: k in after.blobs <==> k in t.blobs && now <= t.blobs[k].createdAt + age)
    && (forall k :: k in after.results <==> k in t.results && Referenced(after.blobs, k, t.results[k]))
    && (forall k :: k in after.manifests <==> k in t.manifests && now <= t.manifests[k].updatedAt + age)
    && (forall k | k in after.blobs :: after.blobs[k] == t.blobs[k])
    && (forall k | k in after.results :: after.results[k] == t.results[k])
    && (forall k | k in after.manifests :: after.manifests[k] == t.manifests[k])
  }

  /** The result's metadata and output root, if it has them, have rows in its own namespace. */
  ghost predicate Referenced(blobs: map<RowKey, BlobRow>, k: RowKey, r: ActionResult) {
    && (r.metadata.Some? ==> KeyOf(k.ns, r.metadata.value) in blobs)
    && (r.outputRoot.Some? ==> KeyOf(k.ns, r.outputRoot.value) in blobs)
  }

  lemma SweepIsExact(t: Tables, now: Time, age: nat)
    ensures SweptExactly(t, SweepTables(t, now, age).0, now, age)
  {
    var after := SweepTables(t, now, age).0;
    forall k | k in t.results ensures Dangling(after.blobs, k, t.results[k]) <==> !Referenced(after.blobs, k, t.results[k]) {
      var r := t.results[k];
      assert r.metadata.Some? ==> r.metadata.value in References(r);
      assert r.outputRoot.Some? ==> r.outputRoot.value in References(r);
    }
  }

  // Accesses.

  const ACCESS_REFRESH := 3600

  function RequestedKeys(ns: Namespace, digests: seq<Digest>): set<RowKey> {
    set i | 0 <= i < |RepresentableDigests(digests)| ::
      var r := RepresentableDigests(digests)[i]; RowKey(ns, r.0.algorithm, r.0.hash, r.1)
  }

  /** What a touch at `now` leaves as a row's last access. */
  function Touched(row: BlobRow, now: Time): BlobRow {
    if row.accessedAt + ACCESS_REFRESH < now then row.(accessedAt := now) else row
  }

  function TouchRows(blobs: map<RowKey, BlobRow>, now: Time, keys: set<RowKey>): map<RowKey, BlobRow> {
    map k | k in blobs :: if k in keys then Touched(blobs[k], now) else blobs[k]
  }

  /** The connection to the database and its tables. */
  class PostgresMetadata {
    var tables: Tables

    constructor ()
      ensures tables == Tables(map[], map[], map[]) && ValidTables(tables)
    {
      tables := Tables(map[], map[], map[]);
    }

    method Register(now: Time, ns: Namespace, d: Digest, stored: PutOutcome) returns (ok: bool)
      requires ValidTables(tables)
      modifies this
      ensures ValidTables(tables)
      ensures match RegisterBlob(old(tables), now, ns, d, stored)
              case None => !ok && tables == old(tables)
              case Some(next) => ok && tables == next
    {
      var k := KeyOf(ns, d);
      if !Permitted(k) {
        return false;
      }
      tables := tables.(blobs := Upsert(tables.blobs, now, k, stored));
      return true;
    }

    method Forget(ns: Namespace, d: Digest)
      requires ValidTables(tables)
      modifies this
      ensures ValidTables(tables) && tables == ForgetBlob(old(tables), ns, d)
    {
      tables := tables.(blobs := tables.blobs - {KeyOf(ns, d)});
    }

    /** Insert, and on a conflict read back what is there. Nothing is answered when a constraint refuses the row. */
    method CommitOnce(ns: Namespace, action: Digest, r: ActionResult) returns (outcome: Option<CommitOutcome>)
      requires ValidTables(tables)
      modifies this
      ensures ValidTables(tables)
      ensures match Commit(old(tables), ns, action, r)
              case None => outcome.None? && tables == old(tables)
              case Some((next, expected)) => outcome == Some(expected) && tables == next
      ensures outcome.Some? ==> (outcome.value.Conflict? <==> Get(tables, ns, action) != Some(r))
    {
      var k := KeyOf(ns, action);
      if !Permitted(k) {
        return None;
      }
      if k !in tables.results {
        tables := tables.(results := tables.results[k := r]);
        return Some(CommitOutcome.Created);
      }
      var existing := tables.results[k];
      return Some(if existing == r then CommitOutcome.AlreadyExists else Conflict);
    }

    /** One conditional statement: an update under the expected tag, or an insert where there is no row. */
    method CommitManifestOnce(now: Time, ns: Namespace, key: Digest, expected: Option<string>, record: ManifestRecord)
      returns (outcome: Option<ManifestOutcome>)
      requires ValidTables(tables)
      modifies this
      ensures ValidTables(tables)
      ensures match CommitManifest(old(tables), now, ns, key, expected, record)
              case None => outcome.None? && tables == old(tables)
              case Some((next, promised)) => outcome == Some(promised) && tables == next
      ensures outcome.Some? ==>
                if outcome.value.PreconditionFailed? then tables == old(tables)
                else GetManifest(tables, ns, key) == Some(record)
    {
      var k := KeyOf(ns, key);
      var rows := 0;
      if expected.Some? {
        if k in tables.manifests && tables.manifests[k].record.etag == expected.value {
          tables := tables.(manifests := tables.manifests[k := ManifestRow(record, now)]);
          rows := 1;
        }
      } else {
        if !Permitted(k) || k.algorithm != "blake3" {
          return None;
        }
        if k !in tables.manifests {
          tables := tables.(manifests := tables.manifests[k := ManifestRow(record, now)]);
          rows := 1;
        }
      }
      return Some(if rows == 0 then PreconditionFailed else if expected.Some? then Updated else ManifestCreated);
    }

    /** Refresh stale accesses: afterwards no touched row's access is older than the interval, and nothing else changed. */
    method TouchBlobs(now: Time, ns: Namespace, digests: seq<Digest>)
      requires ValidTables(tables)
      modifies this
      ensures ValidTables(tables)
      ensures tables == old(tables).(blobs := TouchRows(old(tables.blobs), now, RequestedKeys(ns, digests)))
      ensures forall k | k in tables.blobs && k in RequestedKeys(ns, digests) ::
                tables.blobs[k].accessedAt + ACCESS_REFRESH >= now
    {
      if RepresentableDigests(digests) == [] {
        assert RequestedKeys(ns, digests) == {};
        assert TouchRows(tables.blobs, now, {}) == tables.blobs;
        return;
      }
      tables := tables.(blobs := TouchRows(tables.blobs, now, RequestedKeys(ns, digests)));
    }

    /** Drop what is too old: blob rows first, then results that lost what they refer to, then manifests. */
    method Sweep(now: Time, age: nat) returns (swept: Swept)
      requires ValidTables(tables)
      modifies this
      ensures ValidTables(tables) && SweptExactly(old(tables), tables, now, age)
      ensures swept.blobs == |old(tables.blobs)| - |tables.blobs|
      ensures swept.results == |old(tables.results)| - |tables.results|
      ensures swept.manifests == |old(tables.manifests)| - |tables.manifests|
    {
      ghost var before := tables;
      var blobs, results, manifests := |tables.blobs|, |tables.results|, |tables.manifests|;
      tables := tables.(blobs := SweepBlobs(tables.blobs, now, age));
      tables := tables.(results := SweepResults(tables.results, tables.blobs));
      tables := tables.(manifests := SweepManifests(tables.manifests, now, age));
      assert tables == SweepTables(before, now, age).0;
      SweepIsExact(before, now, age);
      Shrinks(before.blobs, tables.blobs);
      Shrinks(before.results, tables.results);
      Shrinks(before.manifests, tables.manifests);
      swept := Swept(blobs - |tables.blobs|, results - |tables.results|, manifests - |tables.manifests|);
    }
  }

  /** A second sweep at the same instant removes nothing. */
  lemma SweepIsIdempotent(t: Tables, now: Time, age: nat)
    ensures var (once, _) := SweepTables(t, now, age);
            SweepTables(once, now, age) == (once, Swept(0, 0, 0))
  {
    var once := SweepTables(t, now, age).0;
    assert SweepBlobs(once.blobs, now, age) == once.blobs;
    var again := SweepTables(once, now, age).0;
    assert again.results == once.results;
    assert again.manifests == once.manifests;
  }

  /** Sweeping later, or keeping less, never brings anything back. */
  lemma SweepIsMonotone(t: Tables, now: Time, later: Time, age: nat)
    requires now <= later
    ensures var first, second := SweepTables(t, now, age).0, SweepTables(t, later, age).0;
            && second.blobs.Keys <= first.blobs.Keys
            && second.results.Keys <= first.results.Keys
            && second.manifests.Keys <= first.manifests.Keys
            && SweepTables(first, later, age).0 == second
  {
    var first, second := SweepTables(t, now, age).0, SweepTables(t, later, age).0;
    assert SweepBlobs(first.blobs, later, age) == second.blobs;
    forall k | k in second.results ensures k in first.results {
      forall d | d in References(t.results[k]) ensures KeyOf(k.ns, d) in first.blobs {
        assert KeyOf(k.ns, d) in second.blobs;
      }
    }
    assert SweepTables(first, later, age).0.results == second.results;
    assert SweepTables(first, later, age).0.manifests == second.manifests;
  }

  // How often a row is written.

  /** The instants at which a row was written by touches at these instants. */
  function Writes(row: BlobRow, touches: seq<Time>): seq<Time> {
    if touches == [] then []
    else
      var before := Writes(row, touches[..|touches| - 1]);
      var now := touches[|touches| - 1];
      if Touched(After(row, touches[..|touches| - 1]), now) != After(row, touches[..|touches| - 1])
      then before + [now] else before
  }

  function After(row: BlobRow, touches: seq<Time>): BlobRow {
    if touches == [] then row else Touched(After(row, touches[..|touches| - 1]), touches[|touches| - 1])
  }

  /** Touches in any number write a row more than an hour apart, however often it is served. */
  lemma {:induction false} TouchesAreRateLimited(row: BlobRow, touches: seq<Time>)
    ensures Spaced(Writes(row, touches), ACCESS_REFRESH + 1)
    ensures var writes := Writes(row, touches);
            if writes == [] then After(row, touches) == row
            else After(row, touches) == row.(accessedAt := writes[|writes| - 1])
  {
    if touches != [] {
      var init, now := touches[..|touches| - 1], touches[|touches| - 1];
      TouchesAreRateLimited(row, init);
      if Touched(After(row, init), now) != After(row, init) && Writes(row, init) != [] {
        SpacedSnoc(Writes(row, init), ACCESS_REFRESH + 1, now);
      }
    }
  }
}
