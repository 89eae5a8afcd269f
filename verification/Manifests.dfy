/**
 Workers that learn of actions at the same time and share one manifest: each
 reads it, adds to what it read, and writes it back under the tag it read.
 */
module Manifests {
  import opened Encoding
  import opened Digests
  import opened Memory

  // The request's precondition.

  datatype Precondition = Create | Match(etag: string) | Missing | Malformed

  predicate IsEtag(text: string) {
    |text| == 64 && forall i | 0 <= i < |text| :: IsLowerHex(text[i])
  }

  /** What the If-None-Match and If-Match headers of RFC 9110 (sections 13.1.1 and 13.1.2) ask for here. */
  function ManifestPrecondition(ifNoneMatch: Option<string>, ifMatch: Option<string>): Precondition {
    if ifNoneMatch == Some("*") then Create
    else
      match ifMatch
      case None => Missing
      case Some(value) =>
        if |value| >= 2 && value[0] == '"' && value[|value| - 1] == '"' && IsEtag(value[1..|value| - 1])
        then Match(value[1..|value| - 1]) else Malformed
  }

  function Quoted(etag: string): string {
    "\"" + etag + "\""
  }

  /** The tag a reader was given is the tag its update is matched against, and nothing else is. */
  lemma ReadTagMatches(etag: string, ifNoneMatch: Option<string>, value: string)
    requires ifNoneMatch != Some("*")
    ensures ManifestPrecondition(ifNoneMatch, Some(value)) == Match(etag) <==> IsEtag(etag) && value == Quoted(etag)
  {
  }

  // The request itself.

  /** Uninterpreted: which manifests are well formed, the key of each, and the hash of its canonical bytes. */
  datatype Rules = Rules(valid: Manifest -> bool, selector: Manifest -> Digest, etagOf: Manifest -> string)

  predicate IsActionKey(d: Digest) {
    ValidDigest(d) && d.algorithm == "blake3"
  }

  /** A manifest the server takes, under the only key it takes it. */
  predicate Belongs(rules: Rules, manifest: Manifest, key: Digest) {
    IsActionKey(key) && rules.valid(manifest) && rules.selector(manifest) == key
  }

  datatype Answer = Refused | Answered(outcome: ManifestOutcome)

  /** A write: refused for a manifest that does not belong or headers that ask for nothing, else one commit. */
  function PutManifest(
    rules: Rules, manifests: map<Key, ManifestRecord>, key: Key,
    ifNoneMatch: Option<string>, ifMatch: Option<string>, manifest: Manifest)
    : (map<Key, ManifestRecord>, Answer)
  {
    if !Belongs(rules, manifest, key.1) then (manifests, Refused)
    else
      var record := ManifestRecord(rules.etagOf(manifest), manifest);
      match ManifestPrecondition(ifNoneMatch, ifMatch)
      case Create =>
        var (after, outcome) := CommitManifestTo(manifests, key, None, record);
        (after, Answered(outcome))
      case Match(etag) =>
        var (after, outcome) := CommitManifestTo(manifests, key, Some(etag), record);
        (after, Answered(outcome))
      case _ => (manifests, Refused)
  }

  /** A read: nothing for a key that is none. */
  function GetManifest(manifests: map<Key, ManifestRecord>, key: Key): Option<Option<ManifestRecord>> {
    if IsActionKey(key.1) then Some(Lookup(manifests, key)) else None
  }

  // Concurrent updates.

  predicate Covers(a: Manifest, b: Manifest) {
    b.predictions <= a.predictions
  }

  /** A worker has read a record or found none, and may then have asked for a write. */
  datatype Worker =
    | Starting(key: Key)
    | Read(key: Key, seen: Option<ManifestRecord>)
    | Wrote(key: Key, written: Manifest, answer: Answer)

  datatype State = State(manifests: map<Key, ManifestRecord>, workers: map<nat, Worker>)

  datatype Move =
    | Start(id: nat, key: Key)
    | Fetch(id: nat)
    | Write(id: nat, manifest: Manifest)

  const EMPTY := State(map[], map[])

  /** A worker writes at least what it read. */
  predicate Merges(seen: Option<ManifestRecord>, manifest: Manifest) {
    seen.Some? ==> Covers(manifest, seen.value.manifest)
  }

  /** The write of a worker: to create what it found missing, or under the tag it was given. */
  function WriteBack(
    rules: Rules, manifests: map<Key, ManifestRecord>, key: Key, seen: Option<ManifestRecord>, manifest: Manifest)
    : (map<Key, ManifestRecord>, Answer)
  {
    match seen
    case None => PutManifest(rules, manifests, key, Some("*"), None, manifest)
    case Some(record) => PutManifest(rules, manifests, key, None, Some(Quoted(record.etag)), manifest)
  }

  function Do(rules: Rules, s: State, m: Move): State {
    match m
    case Start(id, key) => if id in s.workers then s else s.(workers := s.workers[id := Starting(key)])
    case Fetch(id) =>
      if id in s.workers && s.workers[id].Starting? then
        match GetManifest(s.manifests, s.workers[id].key)
        case Some(seen) => s.(workers := s.workers[id := Read(s.workers[id].key, seen)])
        case None => s
      else s
    case Write(id, manifest) =>
      if id in s.workers && s.workers[id].Read? && Merges(s.workers[id].seen, manifest) then
        var w := s.workers[id];
        var (manifests, answer) := WriteBack(rules, s.manifests, w.key, w.seen, manifest);
        State(manifests, s.workers[id := Wrote(w.key, manifest, answer)])
      else s
  }

  function Run(rules: Rules, moves: seq<Move>): State {
    if moves == [] then EMPTY else Do(rules, Run(rules, moves[..|moves| - 1]), moves[|moves| - 1])
  }

  /** What a write under a tag that was read does. */
  lemma WriteUnderTag(rules: Rules, manifests: map<Key, ManifestRecord>, key: Key, seen: ManifestRecord, manifest: Manifest)
    ensures WriteBack(rules, manifests, key, Some(seen), manifest) ==
            if !Belongs(rules, manifest, key.1) || !IsEtag(seen.etag) then (manifests, Refused)
            else
              var (after, outcome) :=
                CommitManifestTo(manifests, key, Some(seen.etag), ManifestRecord(rules.etagOf(manifest), manifest));
              (after, Answered(outcome))
  {
    ReadTagMatches(seen.etag, None, Quoted(seen.etag));
    assert Quoted(seen.etag)[1..|Quoted(seen.etag)| - 1] == seen.etag;
  }

  /**
   Two manifests of one key have a usable tag in common only if neither lacks
   what the other has gained.
   */
  ghost predicate GrowthChangesTag(rules: Rules) {
    forall a, b, key |
      Belongs(rules, a, key) && Belongs(rules, b, key)
      && rules.etagOf(a) == rules.etagOf(b) && IsEtag(rules.etagOf(a)) && Covers(b, a) :: Covers(a, b)
  }

  /** The tag identifies a manifest among those of its key. */
  ghost predicate Injective(rules: Rules) {
    forall a, b, key |
      Belongs(rules, a, key) && Belongs(rules, b, key) && rules.etagOf(a) == rules.etagOf(b) :: a == b
  }

  lemma InjectiveTagsWillDo(rules: Rules)
    requires Injective(rules)
    ensures GrowthChangesTag(rules)
  {
  }

  /** What is stored now is still there later, or has only grown. */
  ghost predicate Kept(a: map<Key, ManifestRecord>, b: map<Key, ManifestRecord>) {
    forall k | k in a :: k in b && Covers(b[k].manifest, a[k].manifest)
  }

  /** A record as the server writes it under a key. */
  predicate Proper(rules: Rules, key: Key, record: ManifestRecord) {
    Belongs(rules, record.manifest, key.1) && record.etag == rules.etagOf(record.manifest)
  }

  predicate IsAccepted(answer: Answer) {
    answer.Answered? && !answer.outcome.PreconditionFailed?
  }

  ghost predicate Invariant(rules: Rules, s: State) {
    && (forall k | k in s.manifests :: Proper(rules, k, s.manifests[k]))
    && (forall id | id in s.workers && s.workers[id].Read? && s.workers[id].seen.Some? ::
          && Proper(rules, s.workers[id].key, s.workers[id].seen.value)
          && s.workers[id].key in s.manifests
          && Covers(s.manifests[s.workers[id].key].manifest, s.workers[id].seen.value.manifest))
    && (forall id | id in s.workers && s.workers[id].Wrote? && IsAccepted(s.workers[id].answer) ::
          && s.workers[id].key in s.manifests
          && Covers(s.manifests[s.workers[id].key].manifest, s.workers[id].written))
  }

  /** One write keeps what is there, and an accepted one is there afterwards. */
  lemma WriteKeeps(rules: Rules, manifests: map<Key, ManifestRecord>, key: Key, seen: Option<ManifestRecord>, manifest: Manifest)
    requires GrowthChangesTag(rules)
    requires forall k | k in manifests :: Proper(rules, k, manifests[k])
    requires Merges(seen, manifest)
    requires seen.Some? ==>
               && Proper(rules, key, seen.value) && key in manifests
               && Covers(manifests[key].manifest, seen.value.manifest)
    ensures var (after, answer) := WriteBack(rules, manifests, key, seen, manifest);
            && Kept(manifests, after)
            && (forall k | k in after :: Proper(rules, k, after[k]))
            && (IsAccepted(answer) ==> key in after && after[key].manifest == manifest)
  {
    if seen.Some? {
      WriteUnderTag(rules, manifests, key, seen.value, manifest);
      hide Belongs;
      hide WriteBack;
      hide IsEtag;
      if Belongs(rules, manifest, key.1) && IsEtag(seen.value.etag) && manifests[key].etag == seen.value.etag {
        assert Covers(seen.value.manifest, manifests[key].manifest);
      }
    }
  }

  lemma WorkerKeeps(rules: Rules, s: State, id: nat, manifest: Manifest)
    requires GrowthChangesTag(rules) && Invariant(rules, s)
    requires id in s.workers && s.workers[id].Read? && Merges(s.workers[id].seen, manifest)
    ensures var t := Do(rules, s, Write(id, manifest)); Invariant(rules, t) && Kept(s.manifests, t.manifests)
  {
    hide GrowthChangesTag;
    hide Proper;
    hide Merges;
    hide WriteBack;
    WriteKeeps(rules, s.manifests, s.workers[id].key, s.workers[id].seen, manifest);
  }

  lemma DoKeeps(rules: Rules, s: State, m: Move)
    requires GrowthChangesTag(rules) && Invariant(rules, s)
    ensures Invariant(rules, Do(rules, s, m)) && Kept(s.manifests, Do(rules, s, m).manifests)
  {
    hide GrowthChangesTag;
    hide Proper;
    hide Merges;
    hide WriteBack;
    if m.Write? && m.id in s.workers && s.workers[m.id].Read? && Merges(s.workers[m.id].seen, m.manifest) {
      WorkerKeeps(rules, s, m.id, m.manifest);
    }
  }

  lemma {:induction false} EveryRun(rules: Rules, moves: seq<Move>)
    requires GrowthChangesTag(rules)
    ensures Invariant(rules, Run(rules, moves))
  {
    if moves != [] {
      EveryRun(rules, moves[..|moves| - 1]);
      DoKeeps(rules, Run(rules, moves[..|moves| - 1]), moves[|moves| - 1]);
    }
  }

  lemma {:induction false} KeptLater(rules: Rules, moves: seq<Move>, more: seq<Move>)
    requires GrowthChangesTag(rules)
    ensures Kept(Run(rules, moves).manifests, Run(rules, moves + more).manifests)
    decreases |more|
  {
    hide Do;
    hide GrowthChangesTag;
    hide Invariant;
    if more == [] {
      assert moves + more == moves;
    } else {
      var init := more[..|more| - 1];
      KeptLater(rules, moves, init);
      EveryRun(rules, moves + init);
      DoKeeps(rules, Run(rules, moves + init), more[|more| - 1]);
      assert (moves + more)[..|moves + more| - 1] == moves + init;
    }
  }

  /** In no interleaving is a stored prediction lost, nor one an accepted write carried. */
  ghost predicate NothingIsLost(rules: Rules) {
    forall moves: seq<Move>, more: seq<Move> :: RunKeeps(rules, moves, more)
  }

  ghost predicate RunKeeps(rules: Rules, moves: seq<Move>, more: seq<Move>) {
    && Kept(Run(rules, moves).manifests, Run(rules, moves + more).manifests)
    && forall id | id in Run(rules, moves).workers ::
         var w := Run(rules, moves).workers[id];
         w.Wrote? && IsAccepted(w.answer) ==>
           && w.key in Run(rules, moves + more).manifests
           && Covers(Run(rules, moves + more).manifests[w.key].manifest, w.written)
  }

  /**
   Workers that merge what they read never lose a prediction, whatever the
   interleaving, exactly when among the manifests of one key growth changes the
   tag.
   */
  lemma UpdatesLoseNothing(rules: Rules)
    ensures NothingIsLost(rules) <==> GrowthChangesTag(rules)
  {
    if GrowthChangesTag(rules) {
      forall moves: seq<Move>, more: seq<Move> ensures RunKeeps(rules, moves, more) {
        EveryRun(rules, moves);
        KeptLater(rules, moves, more);
      }
    }
    forall a, b, key |
      Belongs(rules, a, key) && Belongs(rules, b, key)
      && rules.etagOf(a) == rules.etagOf(b) && IsEtag(rules.etagOf(a)) && Covers(b, a) && !Covers(a, b)
      ensures !NothingIsLost(rules)
    {
      AStuckTagLoses(rules, a, b, key);
    }
  }

  /** One worker creates a manifest and two others read it. */
  function TwoReaders(key: Key, a: Manifest): seq<Move> {
    [Start(0, key)] + [Fetch(0)] + [Write(0, a)] + [Start(1, key)] + [Fetch(1)] + [Start(2, key)] + [Fetch(2)]
  }

  lemma TwoReadersHaveRead(rules: Rules, key: Key, a: Manifest)
    requires Belongs(rules, a, key.1)
    ensures var record := ManifestRecord(rules.etagOf(a), a);
            Run(rules, TwoReaders(key, a)) ==
            State(map[key := record],
                  map[0 := Wrote(key, a, Answered(ManifestCreated)), 1 := Read(key, Some(record)), 2 := Read(key, Some(record))])
  {
    var m := [Start(0, key)];
    assert [] + m == m;
    RunSnoc(rules, [], Start(0, key));
    RunSnoc(rules, m, Fetch(0));
    RunSnoc(rules, m + [Fetch(0)], Write(0, a));
    var created := m + [Fetch(0)] + [Write(0, a)];
    assert Run(rules, created) ==
      State(map[key := ManifestRecord(rules.etagOf(a), a)], map[0 := Wrote(key, a, Answered(ManifestCreated))]);
    hide Run;
    hide PutManifest;
    RunSnoc(rules, created, Start(1, key));
    RunSnoc(rules, created + [Start(1, key)], Fetch(1));
    RunSnoc(rules, created + [Start(1, key)] + [Fetch(1)], Start(2, key));
    RunSnoc(rules, created + [Start(1, key)] + [Fetch(1)] + [Start(2, key)], Fetch(2));
  }

  /** Both readers' updates pass a tag that did not move, and the second drops what the first had added. */
  lemma AStuckTagLoses(rules: Rules, a: Manifest, b: Manifest, selector: Digest)
    requires Belongs(rules, a, selector) && Belongs(rules, b, selector)
    requires rules.etagOf(a) == rules.etagOf(b) && IsEtag(rules.etagOf(a)) && Covers(b, a) && !Covers(a, b)
    ensures !NothingIsLost(rules)
  {
    hide Run;
    hide IsEtag;
    hide IsActionKey;
    hide WriteBack;
    var key: Key, record := ("ns", selector), ManifestRecord(rules.etagOf(a), a);
    var read, grown := TwoReaders(key, a), TwoReaders(key, a) + [Write(1, b)];
    TwoReadersHaveRead(rules, key, a);
    RunSnoc(rules, read, Write(1, b));
    WriteUnderTag(rules, Run(rules, read).manifests, key, record, b);
    RunSnoc(rules, grown, Write(2, a));
    WriteUnderTag(rules, Run(rules, grown).manifests, key, record, a);
    hide TwoReaders;
    assert Run(rules, grown).manifests[key].manifest == b;
    assert Run(rules, grown + [Write(2, a)]).manifests[key].manifest == a;
    assert !RunKeeps(rules, grown, [Write(2, a)]);
  }

  lemma RunSnoc(rules: Rules, moves: seq<Move>, m: Move)
    ensures Run(rules, moves + [m]) == Do(rules, Run(rules, moves), m)
  {
    assert (moves + [m])[..|moves|] == moves;
  }

  /** With injective tags an update that is accepted replaced exactly what its writer had read. */
  lemma UpdatesReplaceWhatWasRead(rules: Rules, s: State, id: nat, manifest: Manifest)
    requires Injective(rules) && Invariant(rules, s)
    requires id in s.workers && s.workers[id].Read? && Merges(s.workers[id].seen, manifest)
    requires IsAccepted(Do(rules, s, Write(id, manifest)).workers[id].answer)
    ensures Lookup(s.manifests, s.workers[id].key) == s.workers[id].seen
  {
    if s.workers[id].seen.Some? {
      WriteUnderTag(rules, s.manifests, s.workers[id].key, s.workers[id].seen.value, manifest);
      hide WriteBack;
    }
  }
}
