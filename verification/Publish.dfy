/**
 The server as a transition system: uploads, downloads and publish requests run
 at once, each access to a store is one step, and any of them may stop anywhere.
 Whatever is ever published refers only to verified blobs.
 */
module Publish {
  import opened Encoding
  import opened Digests
  import Memory
  import opened Tree

  type ActionResult = Memory.ActionResult

  type Key = Memory.Key

  datatype ActionKind = BuildScript | Cc | Rustc | Task

  /** The raw diagnostics a compiler's metadata refers to. */
  datatype Outputs = NoOutputs | Outputs(stdout: Digest, stderr: Digest)

  /** The uninterpreted parts: JSON, hashing, and which bytes are acceptable descriptors and metadata. */
  datatype Schema = Schema(
    json: Json,
    hasher: Hasher,
    actionKind: Bytes -> Option<ActionKind>,
    metadataOf: (ActionKind, Bytes) -> Option<Outputs>)

  /** What the stores hold. `forgot` records whether any row was ever dropped. */
  datatype Shared = Shared(
    objects: map<Digest, Bytes>, rows: set<Key>, results: map<Key, ActionResult>, forgot: bool)

  /** How far a publish request has come; each stage but the searching ones ends in one store access. */
  datatype Stage =
    | Begin
    | ActionVisible
    | ActionGet
    | MetadataVisible(kind: ActionKind)
    | MetadataGet(kind: ActionKind)
    | StdoutVisible(kind: ActionKind, outputs: Outputs)
    | StderrVisible(kind: ActionKind, outputs: Outputs)
    | Searching(kind: ActionKind, search: Search)
    | NodeVisible(kind: ActionKind, search: Search)
    | NodeGet(kind: ActionKind, search: Search)
    | NodeFiles(kind: ActionKind, search: Search, dir: Directory)
    | Commit(kind: ActionKind, searched: Option<Search>)

  datatype Proc =
    | UploadBody(ns: Namespace, digest: Digest, bytes: Bytes)
    | UploadPut(ns: Namespace, digest: Digest, bytes: Bytes)
    | UploadRegister(ns: Namespace, digest: Digest, outcome: PutOutcome)
    | DownloadVisible(ns: Namespace, digest: Digest)
    | DownloadGet(ns: Namespace, digest: Digest)
    | Publishing(ns: Namespace, action: Digest, result: ActionResult, stage: Stage)
    | Forgetting(ns: Namespace, digest: Digest)
    | Ended(ok: bool)

  datatype Server = Server(shared: Shared, procs: map<nat, Proc>)

  const EMPTY := Server(Shared(map[], {}, map[], false), map[])

  const MAX_OBJECT_BYTES := 16 * 1024 * 1024

  function ViewOf(sh: Shared, ns: Namespace): View {
    View(set k | k in sh.rows && k.0 == ns :: k.1, sh.objects)
  }

  predicate Visible(sh: Shared, ns: Namespace, d: Digest) {
    (ns, d) in sh.rows
  }

  // Steps.

  /** Where a request goes once its descriptor is known to be of `kind`. */
  function AfterAction(r: ActionResult, kind: ActionKind): Option<Stage> {
    if kind != Task && (r.metadata.None? || r.outputRoot.None?) then None
    else if r.metadata.Some? then Some(MetadataVisible(kind))
    else Some(AfterMetadata(r, kind))
  }

  function AfterMetadata(r: ActionResult, kind: ActionKind): Stage {
    match r.outputRoot
    case Some(root) => Searching(kind, Start(root))
    case None => Commit(kind, None)
  }

  /** One turn of the tree search up to its first store access. */
  function SearchTurn(kind: ActionKind, s: Search): Option<Stage> {
    if s.pending == [] then Some(Commit(kind, Some(s)))
    else
      var visit := s.pending[|s.pending| - 1];
      if visit.Exit? then Some(Searching(kind, AfterExit(s)))
      else if visit.digest in s.seen then Some(Searching(kind, AfterSkip(s)))
      else if visit.digest in s.visiting then None
      else if |s.seen| + |s.visiting| + 1 > MAX_DIRECTORIES then None
      else if visit.digest.size > MAX_DIRECTORY_BYTES then None
      else Some(NodeVisible(kind, s))
  }

  /** Whether bytes decode to a canonical version 1 directory with sound entries. */
  ghost function DecodeDirectory(schema: Schema, bytes: Bytes): Option<Directory> {
    if SoundDirectory(schema.json, bytes) then schema.json.decode(bytes) else None
  }

  /** The answer of one store access of a publish request: the next stage, a rejection, or a row to forget. */
  datatype Reply = Proceed(stage: Stage) | Reject | Drop(digest: Digest)

  function FromOption(stage: Option<Stage>): Reply {
    match stage
    case Some(next) => Proceed(next)
    case None => Reject
  }

  /** Read a canonical JSON object that must be visible; `d` comes from the request. */
  predicate MayRead(d: Digest) {
    ValidDigest(d) && d.size <= MAX_OBJECT_BYTES
  }

  ghost function PublishTurn(schema: Schema, sh: Shared, ns: Namespace, action: Digest, r: ActionResult, stage: Stage): Reply {
    match stage
    case Begin =>
      if r.version == 1 && r.action == action && action.algorithm == "blake3" && MayRead(action)
      then Proceed(ActionVisible) else Reject
    case ActionVisible => if Visible(sh, ns, action) then Proceed(ActionGet) else Reject
    case ActionGet =>
      if action !in sh.objects then Drop(action)
      else (match schema.actionKind(sh.objects[action])
            case None => Reject
            case Some(kind) => FromOption(AfterAction(r, kind)))
    case MetadataVisible(kind) =>
      if r.metadata.Some? && MayRead(r.metadata.value) && Visible(sh, ns, r.metadata.value)
      then Proceed(MetadataGet(kind)) else Reject
    case MetadataGet(kind) =>
      if r.metadata.None? then Reject
      else if r.metadata.value !in sh.objects then Drop(r.metadata.value)
      else (match schema.metadataOf(kind, sh.objects[r.metadata.value])
            case None => Reject
            case Some(NoOutputs) => Proceed(AfterMetadata(r, kind))
            case Some(outputs) => Proceed(StdoutVisible(kind, outputs)))
    case StdoutVisible(kind, outputs) =>
      if outputs.Outputs? && ValidDigest(outputs.stdout) && Visible(sh, ns, outputs.stdout)
      then Proceed(StderrVisible(kind, outputs)) else Reject
    case StderrVisible(kind, outputs) =>
      if outputs.Outputs? && ValidDigest(outputs.stderr) && Visible(sh, ns, outputs.stderr)
      then Proceed(AfterMetadata(r, kind)) else Reject
    case Searching(kind, s) => FromOption(SearchTurn(kind, s))
    case NodeVisible(kind, s) =>
      if s.pending != [] && Visible(sh, ns, s.pending[|s.pending| - 1].digest) then Proceed(NodeGet(kind, s)) else Reject
    case NodeGet(kind, s) =>
      if s.pending == [] then Reject
      else
        var d := s.pending[|s.pending| - 1].digest;
        if d !in sh.objects then Drop(d)
        else (match DecodeDirectory(schema, sh.objects[d])
              case None => Reject
              case Some(dir) => Proceed(NodeFiles(kind, s, dir)))
    case NodeFiles(kind, s, dir) =>
      if s.pending != [] && FileDigests(dir) <= ViewOf(sh, ns).visible
      then Proceed(Searching(kind, AfterEnter(s, Children(dir)))) else Reject
    case Commit(_, _) => Reject
  }

  /** Commit atomically, as the in-memory store does. */
  function CommitResult(sh: Shared, key: Key, r: ActionResult): (Shared, bool) {
    var (results, outcome) := Memory.CommitTo(sh.results, key, r);
    (sh.(results := results), !outcome.Conflict?)
  }

  /** One step of one process. */
  ghost function Step(schema: Schema, sh: Shared, p: Proc): (Shared, Proc) {
    match p
    case UploadBody(ns, d, bytes) =>
      (sh, if ValidDigest(d) && Matches(schema.hasher, d, bytes) then UploadPut(ns, d, bytes) else Ended(false))
    case UploadPut(ns, d, bytes) =>
      if d in sh.objects then (sh, UploadRegister(ns, d, AlreadyExists))
      else (sh.(objects := sh.objects[d := bytes]), UploadRegister(ns, d, Created))
    case UploadRegister(ns, d, _) => (sh.(rows := sh.rows + {(ns, d)}), Ended(true))
    case DownloadVisible(ns, d) => (sh, if Visible(sh, ns, d) then DownloadGet(ns, d) else Ended(false))
    case DownloadGet(ns, d) => (sh, if d in sh.objects then Ended(true) else Forgetting(ns, d))
    case Forgetting(ns, d) => (sh.(rows := sh.rows - {(ns, d)}, forgot := true), Ended(false))
    case Publishing(ns, action, r, stage) =>
      if stage.Commit? then
        var (next, ok) := CommitResult(sh, (ns, action), r);
        (next, Ended(ok))
      else (
        match PublishTurn(schema, sh, ns, action, r, stage)
        case Proceed(next) => (sh, Publishing(ns, action, r, next))
        case Reject => (sh, Ended(false))
        case Drop(d) => (sh, Forgetting(ns, d)))
    case Ended(_) => (sh, p)
  }

  /** A request arrives, takes one step, or dies where it stands. */
  datatype Move = Arrive(id: nat, request: Proc) | Run(id: nat) | Die(id: nat)

  predicate IsRequest(p: Proc) {
    p.UploadBody? || p.DownloadVisible? || (p.Publishing? && p.stage.Begin?)
  }

  ghost function Do(schema: Schema, s: Server, move: Move): Server {
    match move
    case Arrive(id, request) =>
      if id !in s.procs && IsRequest(request) then s.(procs := s.procs[id := request]) else s
    case Run(id) =>
      if id in s.procs then
        var (shared, p) := Step(schema, s.shared, s.procs[id]);
        Server(shared, s.procs[id := p])
      else s
    case Die(id) => if id in s.procs then s.(procs := s.procs[id := Ended(false)]) else s
  }

  ghost function Execute(schema: Schema, moves: seq<Move>): Server {
    if moves == [] then EMPTY else Do(schema, Execute(schema, moves[..|moves| - 1]), moves[|moves| - 1])
  }

  // What is true of every reachable server.

  /** Stores only gain, and no object ever changes. */
  ghost predicate Grows(a: Shared, b: Shared) {
    && a.rows <= b.rows
    && (forall d | d in a.objects :: d in b.objects && b.objects[d] == a.objects[d])
    && (forall k | k in a.results :: k in b.results && b.results[k] == a.results[k])
  }

  ghost predicate Registered(sh: Shared, ns: Namespace, d: Digest) {
    (ns, d) in sh.rows && d in sh.objects
  }

  ghost predicate HasKind(schema: Schema, sh: Shared, ns: Namespace, action: Digest, kind: ActionKind) {
    Registered(sh, ns, action) && schema.actionKind(sh.objects[action]) == Some(kind)
  }

  /** The result's metadata is registered, and so is all it refers to. */
  ghost predicate MetadataHolds(schema: Schema, sh: Shared, ns: Namespace, r: ActionResult, kind: ActionKind) {
    r.metadata.Some? ==>
      && Registered(sh, ns, r.metadata.value)
      && var found := schema.metadataOf(kind, sh.objects[r.metadata.value]);
         && found.Some?
         && (found.value.Outputs? ==>
               Registered(sh, ns, found.value.stdout) && Registered(sh, ns, found.value.stderr))
  }

  /** A search in progress on stores that go on growing. */
  ghost predicate TreeSoFar(schema: Schema, sh: Shared, ns: Namespace, root: Digest, s: Search) {
    && Coherent(schema.json, sh.objects, root, s)
    && Ordered(schema.json, sh.objects, s)
    && Passed(schema.json, ViewOf(sh, ns), s)
    && |s.seen| + |s.visiting| <= MAX_DIRECTORIES
  }

  ghost predicate TreeHolds(schema: Schema, sh: Shared, ns: Namespace, r: ActionResult) {
    r.outputRoot.Some? ==> exists s: Search :: s.pending == [] && TreeSoFar(schema, sh, ns, r.outputRoot.value, s)
  }

  /** Everything a published result refers to is in place. */
  ghost predicate Intact(schema: Schema, sh: Shared, ns: Namespace, action: Digest, r: ActionResult) {
    exists kind ::
      && HasKind(schema, sh, ns, action, kind)
      && MetadataHolds(schema, sh, ns, r, kind)
      && TreeHolds(schema, sh, ns, r)
      && (kind != Task ==> r.metadata.Some? && r.outputRoot.Some?)
  }

  /** The root of a result under search. */
  ghost predicate SearchHolds(schema: Schema, sh: Shared, ns: Namespace, r: ActionResult, kind: ActionKind, s: Search) {
    && MetadataHolds(schema, sh, ns, r, kind)
    && r.outputRoot.Some?
    && TreeSoFar(schema, sh, ns, r.outputRoot.value, s)
  }

  /** The top of the stack is a new directory within the bounds. */
  ghost predicate Entering(s: Search) {
    && s.pending != [] && s.pending[|s.pending| - 1].Enter?
    && s.pending[|s.pending| - 1].digest !in s.seen + s.visiting
    && |s.seen| + |s.visiting| + 1 <= MAX_DIRECTORIES
    && s.pending[|s.pending| - 1].digest.size <= MAX_DIRECTORY_BYTES
  }

  ghost predicate StageHolds(schema: Schema, sh: Shared, ns: Namespace, action: Digest, r: ActionResult, stage: Stage) {
    match stage
    case Begin => true
    case ActionVisible => true
    case ActionGet => Registered(sh, ns, action)
    case _ =>
      && HasKind(schema, sh, ns, action, stage.kind)
      && (stage.kind != Task ==> r.metadata.Some? && r.outputRoot.Some?)
      && KindStageHolds(schema, sh, ns, r, stage)
  }

  ghost predicate KindStageHolds(schema: Schema, sh: Shared, ns: Namespace, r: ActionResult, stage: Stage) {
    match stage
    case MetadataGet(_) => r.metadata.Some? && Registered(sh, ns, r.metadata.value)
    case StdoutVisible(kind, outputs) => OutputsFound(schema, sh, ns, r, kind, outputs)
    case StderrVisible(kind, outputs) =>
      OutputsFound(schema, sh, ns, r, kind, outputs) && Registered(sh, ns, outputs.stdout)
    case Searching(kind, s) => SearchHolds(schema, sh, ns, r, kind, s)
    case NodeVisible(kind, s) => SearchHolds(schema, sh, ns, r, kind, s) && Entering(s)
    case NodeGet(kind, s) =>
      && SearchHolds(schema, sh, ns, r, kind, s) && Entering(s)
      && Registered(sh, ns, s.pending[|s.pending| - 1].digest)
    case NodeFiles(kind, s, dir) =>
      && SearchHolds(schema, sh, ns, r, kind, s) && Entering(s)
      && NodeFound(schema, sh, ns, s.pending[|s.pending| - 1].digest, dir)
    case Commit(kind, _) => MetadataHolds(schema, sh, ns, r, kind) && TreeHolds(schema, sh, ns, r)
    case _ => true
  }

  ghost predicate OutputsFound(schema: Schema, sh: Shared, ns: Namespace, r: ActionResult, kind: ActionKind, outputs: Outputs) {
    && r.metadata.Some? && Registered(sh, ns, r.metadata.value)
    && schema.metadataOf(kind, sh.objects[r.metadata.value]) == Some(outputs)
    && outputs.Outputs?
  }

  ghost predicate NodeFound(schema: Schema, sh: Shared, ns: Namespace, d: Digest, dir: Directory) {
    && Registered(sh, ns, d)
    && DecodeDirectory(schema, sh.objects[d]) == Some(dir)
  }

  ghost predicate ProcHolds(schema: Schema, sh: Shared, p: Proc) {
    match p
    case UploadPut(_, d, bytes) => ValidDigest(d) && Matches(schema.hasher, d, bytes)
    case UploadRegister(_, d, _) => d in sh.objects
    case DownloadGet(ns, d) => Registered(sh, ns, d)
    case Forgetting(_, _) => false
    case Publishing(ns, action, r, stage) => StageHolds(schema, sh, ns, action, r, stage)
    case _ => true
  }

  ghost predicate SharedHolds(schema: Schema, sh: Shared) {
    && !sh.forgot
    && (forall k | k in sh.rows :: k.1 in sh.objects)
    && (forall d | d in sh.objects :: ValidDigest(d) && Matches(schema.hasher, d, sh.objects[d]))
    && (forall k | k in sh.results :: Intact(schema, sh, k.0, k.1, sh.results[k]))
  }

  ghost predicate Invariant(schema: Schema, s: Server) {
    && SharedHolds(schema, s.shared)
    && (forall id | id in s.procs :: ProcHolds(schema, s.shared, s.procs[id]))
  }

  // Facts about stores survive growth.

  lemma SearchSurvives(schema: Schema, a: Shared, b: Shared, ns: Namespace, root: Digest, s: Search)
    requires Grows(a, b) && TreeSoFar(schema, a, ns, root, s)
    ensures TreeSoFar(schema, b, ns, root, s)
  {
    forall d | d in s.visiting || d in s.seen
      ensures GoodNode(schema.json, ViewOf(b, ns), d)
      ensures Kids(schema.json, a.objects, d) == Kids(schema.json, b.objects, d)
    {
      assert GoodNode(schema.json, ViewOf(a, ns), d);
    }
    forall i | 0 <= i < |s.pending| && s.pending[i].Exit? ensures s.pending[i].digest in s.visiting {
      assert s.pending[i] == Exit(s.pending[i].digest);
    }
  }

  lemma TreeSurvives(schema: Schema, a: Shared, b: Shared, ns: Namespace, r: ActionResult)
    requires Grows(a, b) && TreeHolds(schema, a, ns, r)
    ensures TreeHolds(schema, b, ns, r)
  {
    hide TreeSoFar;
    hide Grows;
    if r.outputRoot.Some? {
      var s: Search :| s.pending == [] && TreeSoFar(schema, a, ns, r.outputRoot.value, s);
      SearchSurvives(schema, a, b, ns, r.outputRoot.value, s);
    }
  }

  lemma MetadataSurvives(schema: Schema, a: Shared, b: Shared, ns: Namespace, r: ActionResult, kind: ActionKind)
    requires Grows(a, b) && MetadataHolds(schema, a, ns, r, kind)
    ensures MetadataHolds(schema, b, ns, r, kind)
  {
  }

  lemma IntactSurvives(schema: Schema, a: Shared, b: Shared, ns: Namespace, action: Digest, r: ActionResult)
    requires Grows(a, b) && Intact(schema, a, ns, action, r)
    ensures Intact(schema, b, ns, action, r)
  {
    hide TreeHolds;
    hide MetadataHolds;
    var kind :|
      && HasKind(schema, a, ns, action, kind) && MetadataHolds(schema, a, ns, r, kind)
      && TreeHolds(schema, a, ns, r) && (kind != Task ==> r.metadata.Some? && r.outputRoot.Some?);
    TreeSurvives(schema, a, b, ns, r);
    MetadataSurvives(schema, a, b, ns, r, kind);
    assert HasKind(schema, b, ns, action, kind);
  }

  lemma StageSurvives(schema: Schema, a: Shared, b: Shared, ns: Namespace, action: Digest, r: ActionResult, stage: Stage)
    requires Grows(a, b) && StageHolds(schema, a, ns, action, r, stage)
    ensures StageHolds(schema, b, ns, action, r, stage)
  {
    hide TreeHolds;
    hide MetadataHolds;
    hide TreeSoFar;
    match stage {
      case Searching(kind, s) => SearchHoldsSurvives(schema, a, b, ns, r, kind, s);
      case NodeVisible(kind, s) => SearchHoldsSurvives(schema, a, b, ns, r, kind, s);
      case NodeGet(kind, s) => SearchHoldsSurvives(schema, a, b, ns, r, kind, s);
      case NodeFiles(kind, s, _) => SearchHoldsSurvives(schema, a, b, ns, r, kind, s);
      case Commit(kind, _) =>
        TreeSurvives(schema, a, b, ns, r);
        MetadataSurvives(schema, a, b, ns, r, kind);
      case _ =>
    }
  }

  lemma SearchHoldsSurvives(schema: Schema, a: Shared, b: Shared, ns: Namespace, r: ActionResult, kind: ActionKind, s: Search)
    requires Grows(a, b) && SearchHolds(schema, a, ns, r, kind, s)
    ensures SearchHolds(schema, b, ns, r, kind, s)
  {
    hide MetadataHolds;
    hide TreeSoFar;
    MetadataSurvives(schema, a, b, ns, r, kind);
    SearchSurvives(schema, a, b, ns, r.outputRoot.value, s);
  }

  lemma ProcSurvives(schema: Schema, a: Shared, b: Shared, p: Proc)
    requires Grows(a, b) && ProcHolds(schema, a, p)
    ensures ProcHolds(schema, b, p)
  {
    hide StageHolds;
    if p.Publishing? {
      StageSurvives(schema, a, b, p.ns, p.action, p.result, p.stage);
    }
  }

  // Every step keeps the invariant.

  lemma StartHolds(schema: Schema, sh: Shared, ns: Namespace, r: ActionResult, kind: ActionKind)
    requires r.outputRoot.Some? && MetadataHolds(schema, sh, ns, r, kind)
    ensures SearchHolds(schema, sh, ns, r, kind, Start(r.outputRoot.value))
  {
    assert Start(r.outputRoot.value).pending[0].digest == r.outputRoot.value;
  }

  lemma AfterMetadataHolds(schema: Schema, sh: Shared, ns: Namespace, action: Digest, r: ActionResult, kind: ActionKind)
    requires HasKind(schema, sh, ns, action, kind) && (kind != Task ==> r.metadata.Some? && r.outputRoot.Some?)
    requires MetadataHolds(schema, sh, ns, r, kind)
    ensures StageHolds(schema, sh, ns, action, r, AfterMetadata(r, kind))
  {
    hide MetadataHolds;
    hide TreeSoFar;
    if r.outputRoot.Some? {
      StartHolds(schema, sh, ns, r, kind);
    }
  }

  lemma SearchTurnHolds(schema: Schema, sh: Shared, ns: Namespace, action: Digest, r: ActionResult, kind: ActionKind, s: Search)
    requires StageHolds(schema, sh, ns, action, r, Searching(kind, s))
    requires SearchTurn(kind, s).Some?
    ensures StageHolds(schema, sh, ns, action, r, SearchTurn(kind, s).value)
  {
    hide MetadataHolds;
    hide TreeSoFar;
    var root := r.outputRoot.value;
    if s.pending == [] {
      assert TreeSoFar(schema, sh, ns, root, s);
    } else if s.pending[|s.pending| - 1].Exit? {
      ExitKeepsTree(schema, sh, ns, root, s);
    } else if s.pending[|s.pending| - 1].digest in s.seen {
      SkipKeepsTree(schema, sh, ns, root, s);
    }
  }

  lemma SkipKeepsTree(schema: Schema, sh: Shared, ns: Namespace, root: Digest, s: Search)
    requires s.pending != [] && s.pending[|s.pending| - 1].Enter?
    requires s.pending[|s.pending| - 1].digest in s.seen
    requires TreeSoFar(schema, sh, ns, root, s)
    ensures TreeSoFar(schema, sh, ns, root, AfterSkip(s))
  {
    hide Kids;
    hide GoodNode;
    SkipCoherent(schema.json, sh.objects, root, s);
  }

  lemma ExitKeepsTree(schema: Schema, sh: Shared, ns: Namespace, root: Digest, s: Search)
    requires s.pending != [] && s.pending[|s.pending| - 1].Exit?
    requires TreeSoFar(schema, sh, ns, root, s)
    ensures TreeSoFar(schema, sh, ns, root, AfterExit(s))
  {
    hide Kids;
    hide GoodNode;
    ExitCoherent(schema.json, sh.objects, root, s);
    var d := s.pending[|s.pending| - 1].digest;
    assert Exit(d) in s.pending;
  }

  lemma EnterKeepsTree(schema: Schema, sh: Shared, ns: Namespace, root: Digest, s: Search, dir: Directory)
    requires TreeSoFar(schema, sh, ns, root, s) && Entering(s)
    requires NodeFound(schema, sh, ns, s.pending[|s.pending| - 1].digest, dir)
    requires FileDigests(dir) <= ViewOf(sh, ns).visible
    ensures TreeSoFar(schema, sh, ns, root, AfterEnter(s, Children(dir)))
  {
    hide Coherent;
    hide Ordered;
    var d, kids := s.pending[|s.pending| - 1].digest, Children(dir);
    EnteredIsGood(schema, sh, ns, d, dir);
    hide GoodNode;
    EnterCoherent(schema.json, sh.objects, root, s, kids);
    EnterKeepsOrder(schema.json, sh.objects, s, kids);
    assert Passed(schema.json, ViewOf(sh, ns), AfterEnter(s, kids));
  }

  lemma EnteredIsGood(schema: Schema, sh: Shared, ns: Namespace, d: Digest, dir: Directory)
    requires NodeFound(schema, sh, ns, d, dir) && d.size <= MAX_DIRECTORY_BYTES
    requires FileDigests(dir) <= ViewOf(sh, ns).visible
    ensures GoodNode(schema.json, ViewOf(sh, ns), d)
    ensures Kids(schema.json, sh.objects, d) == Children(dir)
  {
  }

  lemma EnterKeepsOrder(json: Json, objects: map<Digest, Bytes>, s: Search, kids: seq<Digest>)
    requires s.pending != [] && Ordered(json, objects, s)
    ensures Ordered(json, objects, AfterEnter(s, kids))
  {
  }

  lemma PublishTurnHolds(schema: Schema, sh: Shared, ns: Namespace, action: Digest, r: ActionResult, stage: Stage)
    requires SharedHolds(schema, sh) && StageHolds(schema, sh, ns, action, r, stage) && !stage.Commit?
    ensures PublishTurn(schema, sh, ns, action, r, stage).Proceed? ==>
              StageHolds(schema, sh, ns, action, r, PublishTurn(schema, sh, ns, action, r, stage).stage)
    ensures !PublishTurn(schema, sh, ns, action, r, stage).Drop?
  {
    hide Intact;
    hide TreeSoFar;
    hide SoundDirectory;
    hide SearchTurn;
    hide AfterEnter;
    hide AfterMetadata;
    hide ValidDigest;
    hide Matches;
    match stage {
      case ActionGet =>
        var kind := schema.actionKind(sh.objects[action]);
        if kind.Some? && AfterAction(r, kind.value).Some? && r.metadata.None? {
          AfterMetadataHolds(schema, sh, ns, action, r, kind.value);
        }
      case MetadataGet(kind) =>
        if schema.metadataOf(kind, sh.objects[r.metadata.value]) == Some(NoOutputs) {
          AfterMetadataHolds(schema, sh, ns, action, r, kind);
        }
      case StderrVisible(kind, outputs) =>
        if outputs.Outputs? && ValidDigest(outputs.stderr) && Visible(sh, ns, outputs.stderr) {
          AfterMetadataHolds(schema, sh, ns, action, r, kind);
        }
      case Searching(kind, s) =>
        if SearchTurn(kind, s).Some? {
          SearchTurnHolds(schema, sh, ns, action, r, kind, s);
        }
      case NodeFiles(kind, s, dir) =>
        if FileDigests(dir) <= ViewOf(sh, ns).visible {
          EnterKeepsTree(schema, sh, ns, r.outputRoot.value, s, dir);
        }
      case _ =>
    }
  }

  /** A step loses nothing and keeps what is known about the stores and about the process that took it. */
  lemma StepHolds(schema: Schema, sh: Shared, p: Proc)
    requires SharedHolds(schema, sh) && ProcHolds(schema, sh, p)
    ensures Grows(sh, Step(schema, sh, p).0)
    ensures SharedHolds(schema, Step(schema, sh, p).0)
    ensures ProcHolds(schema, Step(schema, sh, p).0, Step(schema, sh, p).1)
  {
    hide Intact;
    hide StageHolds;
    var next := Step(schema, sh, p).0;
    if p.Publishing? && !p.stage.Commit? {
      PublishTurnHolds(schema, sh, p.ns, p.action, p.result, p.stage);
    } else {
      assert Grows(sh, next);
      forall k | k in sh.results ensures Intact(schema, next, k.0, k.1, sh.results[k]) {
        IntactSurvives(schema, sh, next, k.0, k.1, sh.results[k]);
      }
      if p.Publishing? {
        CommitIntact(schema, sh, p.ns, p.action, p.result, p.stage);
        IntactSurvives(schema, sh, next, p.ns, p.action, p.result);
      }
    }
  }

  lemma CommitIntact(schema: Schema, sh: Shared, ns: Namespace, action: Digest, r: ActionResult, stage: Stage)
    requires stage.Commit? && StageHolds(schema, sh, ns, action, r, stage)
    ensures Intact(schema, sh, ns, action, r)
  {
  }

  lemma DoHolds(schema: Schema, s: Server, move: Move)
    requires Invariant(schema, s)
    ensures Invariant(schema, Do(schema, s, move))
    ensures Grows(s.shared, Do(schema, s, move).shared)
  {
    hide SharedHolds;
    hide StageHolds;
    hide Step;
    if move.Run? && move.id in s.procs {
      StepHolds(schema, s.shared, s.procs[move.id]);
      var next := Do(schema, s, move);
      forall id | id in s.procs && id != move.id ensures ProcHolds(schema, next.shared, next.procs[id]) {
        ProcSurvives(schema, s.shared, next.shared, s.procs[id]);
      }
    } else if move.Arrive? && IsRequest(move.request) {
      assert ProcHolds(schema, s.shared, move.request) by { RequestHolds(schema, s.shared, move.request); }
    }
  }

  lemma RequestHolds(schema: Schema, sh: Shared, p: Proc)
    requires IsRequest(p)
    ensures ProcHolds(schema, sh, p)
  {
  }

  lemma {:induction false} ReachableHolds(schema: Schema, moves: seq<Move>)
    ensures Invariant(schema, Execute(schema, moves))
  {
    if moves != [] {
      ReachableHolds(schema, moves[..|moves| - 1]);
      DoHolds(schema, Execute(schema, moves[..|moves| - 1]), moves[|moves| - 1]);
    }
  }

  // What this means for a client.

  /** The digests a published result leads to: the action, its metadata and diagnostics, and its whole output tree. */
  ghost predicate InClosure(schema: Schema, objects: map<Digest, Bytes>, action: Digest, r: ActionResult, d: Digest) {
    || d == action
    || (r.metadata.Some? && (
          || d == r.metadata.value
          || OutputOf(schema, objects, action, r.metadata.value, d)))
    || (r.outputRoot.Some? && exists dir ::
          && Reaches(schema.json, objects, r.outputRoot.value, dir)
          && (d == dir || FileOf(schema, objects, dir, d)))
  }

  ghost predicate OutputOf(schema: Schema, objects: map<Digest, Bytes>, action: Digest, metadata: Digest, d: Digest) {
    && action in objects && metadata in objects && schema.actionKind(objects[action]).Some?
    && var found := schema.metadataOf(schema.actionKind(objects[action]).value, objects[metadata]);
       found.Some? && found.value.Outputs? && (d == found.value.stdout || d == found.value.stderr)
  }

  ghost predicate FileOf(schema: Schema, objects: map<Digest, Bytes>, dir: Digest, d: Digest) {
    && dir in objects && schema.json.decode(objects[dir]).Some?
    && d in FileDigests(schema.json.decode(objects[dir]).value)
  }

  /** The directories reached from a validated root are the ones the search finished. */
  lemma TreeReached(schema: Schema, sh: Shared, ns: Namespace, root: Digest, s: Search, dir: Digest)
    requires s.pending == [] && TreeSoFar(schema, sh, ns, root, s)
    requires Reaches(schema.json, sh.objects, root, dir)
    ensures dir in s.seen && GoodNode(schema.json, ViewOf(sh, ns), dir)
    ensures !ReachesBelow(schema.json, sh.objects, dir, dir)
  {
    hide GoodNode;
    hide Kids;
    var json, objects := schema.json, sh.objects;
    ClosedWhenDry(json, objects, root, s);
    var p :| IsPath(json, objects, p) && p[0] == root && p[|p| - 1] == dir;
    ClosedUnderPath(json, objects, s.seen, p);
    forall q | IsPath(json, objects, q) && |q| > 1 && q[0] == dir ensures q[|q| - 1] != dir {
      NoLoop(json, objects, s, dir, q);
    }
  }

  lemma IntactClosure(schema: Schema, sh: Shared, ns: Namespace, action: Digest, r: ActionResult, d: Digest)
    requires forall k | k in sh.rows :: k.1 in sh.objects
    requires Intact(schema, sh, ns, action, r) && InClosure(schema, sh.objects, action, r, d)
    ensures Registered(sh, ns, d)
  {
    hide TreeSoFar;
    if r.outputRoot.Some? && exists dir ::
        Reaches(schema.json, sh.objects, r.outputRoot.value, dir) && (d == dir || FileOf(schema, sh.objects, dir, d)) {
      var dir :| Reaches(schema.json, sh.objects, r.outputRoot.value, dir) && (d == dir || FileOf(schema, sh.objects, dir, d));
      var s: Search :| s.pending == [] && TreeSoFar(schema, sh, ns, r.outputRoot.value, s);
      TreeReached(schema, sh, ns, r.outputRoot.value, s, dir);
      assert d in ViewOf(sh, ns).visible;
    }
  }

  /**
   After any run whatever, everything any published result leads to is
   registered in its namespace and stored, under bytes that hash to its name;
   no row names a missing object; and no row was ever forgotten.
   */
  lemma EverythingPublishedIsThere(schema: Schema, moves: seq<Move>)
    ensures var sh := Execute(schema, moves).shared;
            && !sh.forgot
            && (forall k | k in sh.rows :: k.1 in sh.objects)
            && (forall d | d in sh.objects :: ValidDigest(d) && Matches(schema.hasher, d, sh.objects[d]))
            && (forall k, d | k in sh.results && InClosure(schema, sh.objects, k.1, sh.results[k], d) ::
                  Registered(sh, k.0, d))
  {
    hide Execute;
    hide Intact;
    hide InClosure;
    ReachableHolds(schema, moves);
    var sh := Execute(schema, moves).shared;
    forall k, d | k in sh.results && InClosure(schema, sh.objects, k.1, sh.results[k], d)
      ensures Registered(sh, k.0, d)
    {
      IntactClosure(schema, sh, k.0, k.1, sh.results[k], d);
    }
  }

  /** Every published output tree is acyclic and bounded. */
  lemma EveryPublishedTreeIsSound(schema: Schema, moves: seq<Move>, key: Key)
    requires key in Execute(schema, moves).shared.results
    requires Execute(schema, moves).shared.results[key].outputRoot.Some?
    ensures var sh := Execute(schema, moves).shared;
            var root := sh.results[key].outputRoot.value;
            exists nodes: set<Digest> ::
              && |nodes| <= MAX_DIRECTORIES
              && (forall dir | Reaches(schema.json, sh.objects, root, dir) ::
                    dir in nodes && !ReachesBelow(schema.json, sh.objects, dir, dir))
  {
    hide Execute;
    hide TreeSoFar;
    hide Reaches;
    hide ReachesBelow;
    ReachableHolds(schema, moves);
    var sh := Execute(schema, moves).shared;
    assert Intact(schema, sh, key.0, key.1, sh.results[key]);
    var root := sh.results[key].outputRoot.value;
    var s: Search :| s.pending == [] && TreeSoFar(schema, sh, key.0, root, s);
    SearchBound(schema, sh, key.0, root, s);
    forall dir | Reaches(schema.json, sh.objects, root, dir)
      ensures dir in s.seen && !ReachesBelow(schema.json, sh.objects, dir, dir)
    {
      TreeReached(schema, sh, key.0, root, s, dir);
    }
  }

  lemma SearchBound(schema: Schema, sh: Shared, ns: Namespace, root: Digest, s: Search)
    requires TreeSoFar(schema, sh, ns, root, s)
    ensures |s.seen| <= MAX_DIRECTORIES
  {
  }

  /** Results are immutable: more of a run never changes or removes what was published. */
  lemma {:induction false} PublishedStaysPublished(schema: Schema, moves: seq<Move>, more: seq<Move>)
    ensures Grows(Execute(schema, moves).shared, Execute(schema, moves + more).shared)
    decreases |more|
  {
    if more == [] {
      assert moves + more == moves;
    } else {
      var init, last := more[..|more| - 1], more[|more| - 1];
      PublishedStaysPublished(schema, moves, init);
      ReachableHolds(schema, moves + init);
      DoHolds(schema, Execute(schema, moves + init), last);
      assert (moves + more)[..|moves + more| - 1] == moves + init;
    }
  }
}
