/**
 The in-memory metadata store: what every store of metadata should do, each
 operation atomic.
 */
module Memory {
  import opened Encoding
  import opened Digests

  /** A result as a client submits it; `rest` stands for the fields the server does not follow. */
  datatype ActionResult = ActionResult(
    version: nat, action: Digest, metadata: Option<Digest>, outputRoot: Option<Digest>, rest: string)

  /** Which actions a task ran, as far as its workers have learned. */
  datatype Manifest = Manifest(task: string, predictions: set<string>)

  datatype ManifestRecord = ManifestRecord(etag: string, manifest: Manifest)

  type Key = (Namespace, Digest)

  datatype CommitOutcome = Created | AlreadyExists | Conflict

  datatype ManifestOutcome = ManifestCreated | Updated | PreconditionFailed

  /** The visible ones of the digests asked for. */
  function VisibleBlobs(blobs: set<Key>, ns: Namespace, digests: seq<Digest>): (r: seq<Digest>)
    ensures forall d :: d in r <==> d in digests && (ns, d) in blobs
  {
    if digests == [] then []
    else if (ns, digests[0]) in blobs then [digests[0]] + VisibleBlobs(blobs, ns, digests[1..])
    else VisibleBlobs(blobs, ns, digests[1..])
  }

  lemma VisibleNone(blobs: set<Key>, ns: Namespace)
    ensures VisibleBlobs(blobs, ns, []) == []
  {
  }

  lemma VisibleFront(blobs: set<Key>, ns: Namespace, d: Digest, rest: seq<Digest>)
    ensures VisibleBlobs(blobs, ns, [d] + rest)
         == (if (ns, d) in blobs then [d] else []) + VisibleBlobs(blobs, ns, rest)
  {
    assert ([d] + rest)[1..] == rest;
    assert [] + VisibleBlobs(blobs, ns, rest) == VisibleBlobs(blobs, ns, rest);
  }

  /** Order is kept: the answer to one request after another is one answer after the other. */
  lemma {:induction false} VisibleInOrder(blobs: set<Key>, ns: Namespace, a: seq<Digest>, b: seq<Digest>)
    ensures VisibleBlobs(blobs, ns, a + b) == VisibleBlobs(blobs, ns, a) + VisibleBlobs(blobs, ns, b)
  {
    if a == [] {
      assert a + b == b;
    } else {
      hide VisibleBlobs;
      var d, rest := a[0], a[1..];
      VisibleInOrder(blobs, ns, rest, b);
      VisibleFront(blobs, ns, d, rest);
      VisibleFront(blobs, ns, d, rest + b);
      assert [d] + rest == a && [d] + (rest + b) == a + b;
      Regroup(if (ns, d) in blobs then [d] else [], VisibleBlobs(blobs, ns, rest), VisibleBlobs(blobs, ns, b));
    }
  }

  lemma VisibleBack(blobs: set<Key>, ns: Namespace, digests: seq<Digest>, i: nat)
    requires i < |digests|
    ensures VisibleBlobs(blobs, ns, digests[..i + 1])
         == VisibleBlobs(blobs, ns, digests[..i]) + (if (ns, digests[i]) in blobs then [digests[i]] else [])
  {
    VisibleInOrder(blobs, ns, digests[..i], [digests[i]]);
    VisibleFront(blobs, ns, digests[i], []);
    VisibleNone(blobs, ns);
    hide VisibleBlobs;
    assert [digests[i]] + [] == [digests[i]];
    assert digests[..i + 1] == digests[..i] + [digests[i]];
  }

  lemma Regroup(a: seq<Digest>, b: seq<Digest>, c: seq<Digest>)
    ensures a + (b + c) == a + b + c
  {
  }

  /** A visible digest is answered as often as it was asked for. */
  lemma {:induction false} VisibleAsOften(blobs: set<Key>, ns: Namespace, digests: seq<Digest>, d: Digest)
    ensures multiset(VisibleBlobs(blobs, ns, digests))[d] == if (ns, d) in blobs then multiset(digests)[d] else 0
  {
    if digests != [] {
      VisibleAsOften(blobs, ns, digests[1..], d);
      assert digests == [digests[0]] + digests[1..];
    }
  }

  function Lookup<V>(entries: map<Key, V>, key: Key): Option<V> {
    if key in entries then Some(entries[key]) else None
  }

  /** The first result of an action stays. */
  function CommitTo(entries: map<Key, ActionResult>, key: Key, r: ActionResult): (map<Key, ActionResult>, CommitOutcome) {
    if key !in entries then (entries[key := r], CommitOutcome.Created)
    else (entries, if entries[key] == r then CommitOutcome.AlreadyExists else Conflict)
  }

  /** Replace a manifest only if its tag is the expected one; with none expected, only create it. */
  function CommitManifestTo(
    manifests: map<Key, ManifestRecord>, key: Key, expected: Option<string>, record: ManifestRecord)
    : (map<Key, ManifestRecord>, ManifestOutcome)
  {
    match (Lookup(manifests, key), expected)
    case (None, None) => (manifests[key := record], ManifestCreated)
    case (Some(current), Some(tag)) =>
      if current.etag == tag then (manifests[key := record], Updated) else (manifests, PreconditionFailed)
    case _ => (manifests, PreconditionFailed)
  }

  /** Asking for many results is asking for each and dropping the misses. */
  function GetEach(get: Digest -> Option<ActionResult>, actions: seq<Digest>): seq<ActionResult> {
    if actions == [] then []
    else
      var rest := GetEach(get, actions[..|actions| - 1]);
      match get(actions[|actions| - 1])
      case Some(r) => rest + [r]
      case None => rest
  }

  /** The loop every store inherits. */
  method GetBatchLoop(get: Digest -> Option<ActionResult>, actions: seq<Digest>) returns (results: seq<ActionResult>)
    ensures results == GetEach(get, actions)
    ensures forall r :: r in results <==> exists i :: 0 <= i < |actions| && get(actions[i]) == Some(r)
  {
    results := [];
    for i := 0 to |actions|
      invariant results == GetEach(get, actions[..i])
      invariant forall r :: r in results <==> exists k :: 0 <= k < i && get(actions[k]) == Some(r)
    {
      assert actions[..i + 1][..i] == actions[..i];
      var result := get(actions[i]);
      if result.Some? {
        results := results + [result.value];
      }
    }
    assert actions[..|actions|] == actions;
  }

  class MemoryMetadata {
    var entries: map<Key, ActionResult>
    var blobs: set<Key>
    var manifests: map<Key, ManifestRecord>

    constructor ()
      ensures entries == map[] && blobs == {} && manifests == map[]
    {
      entries, blobs, manifests := map[], {}, map[];
    }

    /** Keep the digests that have a row: each as often as it was asked for, and in that order. */
    method Visible(ns: Namespace, digests: seq<Digest>) returns (r: seq<Digest>)
      ensures r == VisibleBlobs(blobs, ns, digests)
      ensures forall d :: multiset(r)[d] == if (ns, d) in blobs then multiset(digests)[d] else 0
    {
      r := [];
      for i := 0 to |digests|
        invariant r == VisibleBlobs(blobs, ns, digests[..i])
      {
        VisibleBack(blobs, ns, digests, i);
        if (ns, digests[i]) in blobs {
          r := r + [digests[i]];
        }
      }
      assert digests[..|digests|] == digests;
      hide VisibleBlobs;
      forall d ensures multiset(r)[d] == if (ns, d) in blobs then multiset(digests)[d] else 0 {
        VisibleAsOften(blobs, ns, digests, d);
      }
    }

    /** The outcome of the put is ignored: rows have no age in memory. */
    method Register(ns: Namespace, digest: Digest, stored: PutOutcome)
      modifies this`blobs
      ensures blobs == old(blobs) + {(ns, digest)}
    {
      blobs := blobs + {(ns, digest)};
    }

    method Forget(ns: Namespace, digest: Digest)
      modifies this`blobs
      ensures blobs == old(blobs) - {(ns, digest)}
    {
      blobs := blobs - {(ns, digest)};
    }

    method Get(ns: Namespace, action: Digest) returns (r: Option<ActionResult>)
      ensures r == Lookup(entries, (ns, action))
    {
      r := Lookup(entries, (ns, action));
    }

    method Commit(ns: Namespace, action: Digest, result: ActionResult) returns (outcome: CommitOutcome)
      modifies this`entries
      ensures (entries, outcome) == CommitTo(old(entries), (ns, action), result)
    {
      var key := (ns, action);
      if key !in entries {
        entries := entries[key := result];
        return CommitOutcome.Created;
      }
      if entries[key] == result {
        return CommitOutcome.AlreadyExists;
      }
      return Conflict;
    }

    method CommitManifest(ns: Namespace, key: Digest, expected: Option<string>, record: ManifestRecord)
      returns (outcome: ManifestOutcome)
      modifies this`manifests
      ensures (manifests, outcome) == CommitManifestTo(old(manifests), (ns, key), expected, record)
    {
      var entry := Lookup(manifests, (ns, key));
      var matches := match (entry, expected)
        case (None, None) => true
        case (Some(current), Some(tag)) => current.etag == tag
        case _ => false;
      if !matches {
        return PreconditionFailed;
      }
      outcome := if entry.Some? then Updated else ManifestCreated;
      manifests := manifests[(ns, key) := record];
    }
  }
}
