/**
 A publish request with the stores to itself gets as far as its commit exactly
 when everything its result refers to is in place: the stepwise protocol checks
 neither less nor more than the search on a fixed view does.
 */
module PublishExactly {
  import opened Encoding
  import opened Digests
  import opened Tree
  import opened Publish

  /** What a request needs of the stores, and of itself. */
  ghost predicate Publishable(schema: Schema, sh: Shared, ns: Namespace, action: Digest, r: ActionResult) {
    && r.version == 1 && r.action == action && action.algorithm == "blake3" && MayRead(action)
    && Registered(sh, ns, action)
    && schema.actionKind(sh.objects[action]).Some?
    && var kind := schema.actionKind(sh.objects[action]).value;
       && (kind != Task ==> r.metadata.Some? && r.outputRoot.Some?)
       && (r.metadata.Some? ==> MetadataInPlace(schema, sh, ns, r, kind))
       && TreeInPlace(schema, sh, ns, r)
  }

  ghost predicate MetadataInPlace(schema: Schema, sh: Shared, ns: Namespace, r: ActionResult, kind: ActionKind)
    requires r.metadata.Some?
  {
    && MayRead(r.metadata.value) && Registered(sh, ns, r.metadata.value)
    && schema.metadataOf(kind, sh.objects[r.metadata.value]).Some?
    && OutputsInPlace(sh, ns, schema.metadataOf(kind, sh.objects[r.metadata.value]).value)
  }

  ghost predicate OutputsInPlace(sh: Shared, ns: Namespace, outputs: Outputs) {
    outputs.Outputs? ==>
      && ValidDigest(outputs.stdout) && Visible(sh, ns, outputs.stdout)
      && ValidDigest(outputs.stderr) && Visible(sh, ns, outputs.stderr)
  }

  ghost predicate TreeInPlace(schema: Schema, sh: Shared, ns: Namespace, r: ActionResult) {
    r.outputRoot.Some? ==> Acceptable(schema.json, ViewOf(sh, ns), r.outputRoot.value)
  }

  /** What a request still needs once it has come to a stage. */
  ghost predicate StillNeeds(schema: Schema, sh: Shared, ns: Namespace, action: Digest, r: ActionResult, stage: Stage) {
    match stage
    case Begin => Publishable(schema, sh, ns, action, r)
    case ActionVisible => Publishable(schema, sh, ns, action, r)
    case ActionGet => Publishable(schema, sh, ns, action, r)
    case MetadataVisible(kind) =>
      r.metadata.Some? && MetadataInPlace(schema, sh, ns, r, kind) && TreeInPlace(schema, sh, ns, r)
    case MetadataGet(kind) =>
      r.metadata.Some? && MetadataInPlace(schema, sh, ns, r, kind) && TreeInPlace(schema, sh, ns, r)
    case StdoutVisible(_, outputs) =>
      outputs.Outputs? && OutputsInPlace(sh, ns, outputs) && TreeInPlace(schema, sh, ns, r)
    case StderrVisible(_, outputs) =>
      outputs.Outputs? && ValidDigest(outputs.stderr) && Visible(sh, ns, outputs.stderr) && TreeInPlace(schema, sh, ns, r)
    case Commit(_, _) => true
    case _ => TreeInPlace(schema, sh, ns, r)
  }

  /** What a request alone with the stores has established on the way to a stage. */
  ghost predicate Established(schema: Schema, sh: Shared, ns: Namespace, action: Digest, r: ActionResult, stage: Stage) {
    match stage
    case ActionVisible => r.version == 1 && r.action == action && action.algorithm == "blake3" && MayRead(action)
    case ActionGet =>
      r.version == 1 && r.action == action && action.algorithm == "blake3" && MayRead(action) && Visible(sh, ns, action)
    case MetadataGet(_) => r.metadata.Some? && MayRead(r.metadata.value) && Visible(sh, ns, r.metadata.value)
    case StderrVisible(_, outputs) =>
      outputs.Outputs? && ValidDigest(outputs.stdout) && Visible(sh, ns, outputs.stdout)
    case Searching(_, s) => OnTrack(schema, sh, ns, r, s)
    case NodeVisible(_, s) => OnTrack(schema, sh, ns, r, s) && Entering(s)
    case NodeGet(_, s) => OnTrack(schema, sh, ns, r, s) && Entering(s) && Visible(sh, ns, s.pending[|s.pending| - 1].digest)
    case NodeFiles(_, s, dir) =>
      OnTrack(schema, sh, ns, r, s) && Entering(s) && NodeFound(schema, sh, ns, s.pending[|s.pending| - 1].digest, dir)
    case _ => true
  }

  ghost predicate OnTrack(schema: Schema, sh: Shared, ns: Namespace, r: ActionResult, s: Search) {
    && r.outputRoot.Some?
    && Tree.Searching(schema.json, ViewOf(sh, ns), r.outputRoot.value, s)
    && |s.seen| + |s.visiting| <= MAX_DIRECTORIES
  }

  /** A turn goes on exactly when what is still needed then was needed before. */
  ghost predicate Exact(schema: Schema, sh: Shared, ns: Namespace, action: Digest, r: ActionResult, stage: Stage, reply: Reply) {
    && (StillNeeds(schema, sh, ns, action, r, stage) <==>
          reply.Proceed? && StillNeeds(schema, sh, ns, action, r, reply.stage))
    && (reply.Proceed? ==> Established(schema, sh, ns, action, r, reply.stage))
  }

  lemma VisibleInView(sh: Shared, ns: Namespace, d: Digest)
    ensures d in ViewOf(sh, ns).visible <==> Visible(sh, ns, d)
  {
  }

  lemma StartOnTrack(schema: Schema, sh: Shared, ns: Namespace, r: ActionResult)
    requires r.outputRoot.Some?
    ensures OnTrack(schema, sh, ns, r, Start(r.outputRoot.value))
  {
    StartSearching(schema.json, ViewOf(sh, ns), r.outputRoot.value);
  }

  lemma EarlyTurnExact(schema: Schema, sh: Shared, ns: Namespace, action: Digest, r: ActionResult, stage: Stage)
    requires SharedHolds(schema, sh) && Established(schema, sh, ns, action, r, stage)
    requires stage.Begin? || stage.ActionVisible? || stage.ActionGet? || stage.MetadataVisible? || stage.MetadataGet?
          || stage.StdoutVisible? || stage.StderrVisible?
    ensures Exact(schema, sh, ns, action, r, stage, PublishTurn(schema, sh, ns, action, r, stage))
  {
    hide Acceptable;
    hide Tree.Searching;
    hide Intact;
    hide ValidDigest;
    if r.outputRoot.Some? {
      StartOnTrack(schema, sh, ns, r);
    }
    hide OnTrack;
  }

  /** A cycle or too many directories: the tree is not acceptable. */
  lemma RefusedTree(schema: Schema, sh: Shared, ns: Namespace, r: ActionResult, kind: ActionKind, s: Search)
    requires OnTrack(schema, sh, ns, r, s) && SearchTurn(kind, s).None?
    ensures !Acceptable(schema.json, ViewOf(sh, ns), r.outputRoot.value)
  {
    hide Tree.Searching;
    hide Acceptable;
    hide Justified;
    var json, view, root := schema.json, ViewOf(sh, ns), r.outputRoot.value;
    var d := s.pending[|s.pending| - 1].digest;
    if d in s.visiting {
      CycleIsReal(json, view, root, s);
      JustifiedExcludesAcceptable(json, view, root, Cycle);
    } else if |s.seen| + |s.visiting| + 1 > MAX_DIRECTORIES {
      BoundIsReal(json, view, root, s);
      JustifiedExcludesAcceptable(json, view, root, TooManyDirectories);
    } else {
      assert !GoodNode(json, view, d);
      BadTop(json, view, root, s);
    }
  }

  /** A turn of the search that goes on leaves it on track, and one that runs dry has found the tree acceptable. */
  lemma SearchTurnOnTrack(schema: Schema, sh: Shared, ns: Namespace, r: ActionResult, kind: ActionKind, s: Search)
    requires OnTrack(schema, sh, ns, r, s) && SearchTurn(kind, s).Some?
    ensures match SearchTurn(kind, s).value
            case Searching(_, next) => OnTrack(schema, sh, ns, r, next)
            case NodeVisible(_, next) => next == s && Entering(s)
            case Commit(_, _) => TreeInPlace(schema, sh, ns, r)
            case _ => false
  {
    hide Tree.Searching;
    hide Acceptable;
    var json, view, root := schema.json, ViewOf(sh, ns), r.outputRoot.value;
    if s.pending == [] {
      DryMeansComplete(json, view, root, s);
    } else if s.pending[|s.pending| - 1].Exit? {
      ExitSearching(json, view, root, s);
    } else if s.pending[|s.pending| - 1].digest in s.seen {
      SkipSearching(json, view, root, s);
    }
  }

  lemma SearchTurnExact(schema: Schema, sh: Shared, ns: Namespace, action: Digest, r: ActionResult, kind: ActionKind, s: Search)
    requires OnTrack(schema, sh, ns, r, s)
    ensures Exact(schema, sh, ns, action, r, Stage.Searching(kind, s), FromOption(SearchTurn(kind, s)))
  {
    hide Acceptable;
    hide Tree.Searching;
    if SearchTurn(kind, s).None? {
      RefusedTree(schema, sh, ns, r, kind, s);
    } else {
      SearchTurnOnTrack(schema, sh, ns, r, kind, s);
    }
    hide OnTrack;
    hide Entering;
    hide SearchTurn;
  }

  /** The tree is not acceptable when the directory on top does not pass. */
  lemma BadTop(json: Json, view: View, root: Digest, s: Search)
    requires s.pending != [] && Tree.Searching(json, view, root, s)
    requires !GoodNode(json, view, s.pending[|s.pending| - 1].digest)
    ensures !Acceptable(json, view, root)
  {
  }

  lemma NodeTurnExact(schema: Schema, sh: Shared, ns: Namespace, action: Digest, r: ActionResult, stage: Stage)
    requires stage.NodeVisible? || stage.NodeGet? || stage.NodeFiles?
    requires Established(schema, sh, ns, action, r, stage)
    ensures Exact(schema, sh, ns, action, r, stage, PublishTurn(schema, sh, ns, action, r, stage))
  {
    hide Acceptable;
    hide Tree.Searching;
    hide SoundDirectory;
    hide GoodNode;
    var s := stage.search;
    if !PublishTurn(schema, sh, ns, action, r, stage).Proceed? {
      NodeRefused(schema, sh, ns, action, r, stage);
      BadTop(schema.json, ViewOf(sh, ns), r.outputRoot.value, s);
    } else if stage.NodeFiles? {
      EnteredOnTrack(schema, sh, ns, r, s, stage.dir);
    }
  }

  lemma EnteredOnTrack(schema: Schema, sh: Shared, ns: Namespace, r: ActionResult, s: Search, dir: Directory)
    requires OnTrack(schema, sh, ns, r, s) && Entering(s)
    requires NodeFound(schema, sh, ns, s.pending[|s.pending| - 1].digest, dir)
    requires FileDigests(dir) <= ViewOf(sh, ns).visible
    ensures OnTrack(schema, sh, ns, r, AfterEnter(s, Children(dir)))
  {
    hide Tree.Searching;
    hide GoodNode;
    hide Kids;
    EnteredIsGood(schema, sh, ns, s.pending[|s.pending| - 1].digest, dir);
    EnterSearching(schema.json, ViewOf(sh, ns), r.outputRoot.value, s, Children(dir));
  }

  lemma NodeRefused(schema: Schema, sh: Shared, ns: Namespace, action: Digest, r: ActionResult, stage: Stage)
    requires stage.NodeVisible? || stage.NodeGet? || stage.NodeFiles?
    requires Established(schema, sh, ns, action, r, stage)
    requires !PublishTurn(schema, sh, ns, action, r, stage).Proceed?
    ensures !GoodNode(schema.json, ViewOf(sh, ns), stage.search.pending[|stage.search.pending| - 1].digest)
  {
    hide Tree.Searching;
    hide WellNamed;
    VisibleInView(sh, ns, stage.search.pending[|stage.search.pending| - 1].digest);
  }

  lemma TurnExact(schema: Schema, sh: Shared, ns: Namespace, action: Digest, r: ActionResult, stage: Stage)
    requires SharedHolds(schema, sh) && Established(schema, sh, ns, action, r, stage) && !stage.Commit?
    ensures Exact(schema, sh, ns, action, r, stage, PublishTurn(schema, sh, ns, action, r, stage))
  {
    hide Exact;
    hide SharedHolds;
    if stage.Searching? {
      SearchTurnExact(schema, sh, ns, action, r, stage.kind, stage.search);
    } else if stage.NodeVisible? || stage.NodeGet? || stage.NodeFiles? {
      NodeTurnExact(schema, sh, ns, action, r, stage);
    } else {
      EarlyTurnExact(schema, sh, ns, action, r, stage);
    }
  }

  /** The stage after `n` turns alone, or where the request ended before. */
  ghost function Alone(schema: Schema, sh: Shared, ns: Namespace, action: Digest, r: ActionResult, stage: Stage, n: nat): Reply
    decreases n
  {
    if n == 0 || stage.Commit? then Proceed(stage)
    else
      match PublishTurn(schema, sh, ns, action, r, stage)
      case Proceed(next) => Alone(schema, sh, ns, action, r, next, n - 1)
      case reply => reply
  }

  ghost predicate Commits(schema: Schema, sh: Shared, ns: Namespace, action: Digest, r: ActionResult, stage: Stage) {
    exists n: nat :: CommitsWithin(schema, sh, ns, action, r, stage, n)
  }

  ghost predicate CommitsWithin(
    schema: Schema, sh: Shared, ns: Namespace, action: Digest, r: ActionResult, stage: Stage, n: nat)
  {
    var reply := Alone(schema, sh, ns, action, r, stage, n);
    reply.Proceed? && reply.stage.Commit?
  }

  lemma {:induction false} CommittingNeeds(
    schema: Schema, sh: Shared, ns: Namespace, action: Digest, r: ActionResult, stage: Stage, n: nat)
    requires SharedHolds(schema, sh) && Established(schema, sh, ns, action, r, stage)
    requires CommitsWithin(schema, sh, ns, action, r, stage, n)
    ensures StillNeeds(schema, sh, ns, action, r, stage)
    decreases n
  {
    hide PublishTurn;
    hide Established;
    hide SharedHolds;
    if !stage.Commit? {
      TurnExact(schema, sh, ns, action, r, stage);
      var reply := PublishTurn(schema, sh, ns, action, r, stage);
      CommittingNeeds(schema, sh, ns, action, r, reply.stage, n - 1);
    }
  }

  function Rank(stage: Stage): nat {
    match stage
    case Begin => 9
    case ActionVisible => 8
    case ActionGet => 7
    case MetadataVisible(_) => 6
    case MetadataGet(_) => 5
    case StdoutVisible(_, _) => 4
    case StderrVisible(_, _) => 3
    case Commit(_, _) => 0
    case _ => 1
  }

  function SearchOf(stage: Stage): Search {
    if stage.Searching? || stage.NodeVisible? || stage.NodeGet? || stage.NodeFiles? then stage.search
    else Search([], {}, {}, [])
  }

  /** Directories that may still be entered. */
  function Room(stage: Stage): int {
    MAX_DIRECTORIES - |SearchOf(stage).seen| - |SearchOf(stage).visiting|
  }

  function Inner(stage: Stage): nat {
    match stage
    case Searching(_, _) => 3
    case NodeVisible(_, _) => 2
    case NodeGet(_, _) => 1
    case _ => 0
  }

  /** Nearer the end: an earlier phase left behind, or less of the tree left to search. */
  predicate Nearer(next: Stage, stage: Stage) {
    || Rank(next) < Rank(stage)
    || (Rank(next) == Rank(stage) && (
          || Room(next) < Room(stage)
          || (Room(next) == Room(stage) && (
                || |SearchOf(next).pending| < |SearchOf(stage).pending|
                || (|SearchOf(next).pending| == |SearchOf(stage).pending| && Inner(next) < Inner(stage))))))
  }

  /** Every turn brings the request nearer its end. */
  lemma TurnsDescend(schema: Schema, sh: Shared, ns: Namespace, action: Digest, r: ActionResult, stage: Stage)
    requires Established(schema, sh, ns, action, r, stage) && !stage.Commit?
    requires PublishTurn(schema, sh, ns, action, r, stage).Proceed?
    ensures Nearer(PublishTurn(schema, sh, ns, action, r, stage).stage, stage)
  {
    hide OnTrack;
    hide Nearer;
    match stage {
      case Searching(kind, s) => SearchTurnDescends(schema, sh, ns, r, kind, s);
      case NodeVisible(_, _) => NodeTurnDescends(schema, sh, ns, action, r, stage);
      case NodeGet(_, _) => NodeTurnDescends(schema, sh, ns, action, r, stage);
      case NodeFiles(_, _, _) => NodeTurnDescends(schema, sh, ns, action, r, stage);
      case _ => EarlyTurnDescends(schema, sh, ns, action, r, stage);
    }
  }

  lemma EarlyTurnDescends(schema: Schema, sh: Shared, ns: Namespace, action: Digest, r: ActionResult, stage: Stage)
    requires Rank(stage) > 1 && PublishTurn(schema, sh, ns, action, r, stage).Proceed?
    ensures Nearer(PublishTurn(schema, sh, ns, action, r, stage).stage, stage)
  {
    hide MayRead;
    hide Visible;
    hide Room;
    hide Inner;
    hide SearchOf;
    hide DecodeDirectory;
  }

  lemma NodeTurnDescends(schema: Schema, sh: Shared, ns: Namespace, action: Digest, r: ActionResult, stage: Stage)
    requires (stage.NodeVisible? || stage.NodeGet? || stage.NodeFiles?) && Entering(stage.search)
    requires PublishTurn(schema, sh, ns, action, r, stage).Proceed?
    ensures Nearer(PublishTurn(schema, sh, ns, action, r, stage).stage, stage)
  {
    hide MayRead;
    hide Visible;
    hide DecodeDirectory;
    hide FileDigests;
    if stage.NodeFiles? {
      assert Room(Stage.Searching(stage.kind, AfterEnter(stage.search, Children(stage.dir)))) == Room(stage) - 1;
    }
  }

  lemma SearchTurnDescends(schema: Schema, sh: Shared, ns: Namespace, r: ActionResult, kind: ActionKind, s: Search)
    requires OnTrack(schema, sh, ns, r, s) && SearchTurn(kind, s).Some?
    ensures Nearer(SearchTurn(kind, s).value, Stage.Searching(kind, s))
  {
    hide Tree.Searching;
    if s.pending != [] && s.pending[|s.pending| - 1].Exit? {
      ExitSearching(schema.json, ViewOf(sh, ns), r.outputRoot.value, s);
    }
  }

  /** A request that has all it needs takes another turn, and has all it needs after that. */
  lemma NextTurn(schema: Schema, sh: Shared, ns: Namespace, action: Digest, r: ActionResult, stage: Stage)
    requires SharedHolds(schema, sh) && Established(schema, sh, ns, action, r, stage)
    requires StillNeeds(schema, sh, ns, action, r, stage) && !stage.Commit?
    ensures var reply := PublishTurn(schema, sh, ns, action, r, stage);
            && reply.Proceed? && Established(schema, sh, ns, action, r, reply.stage)
            && StillNeeds(schema, sh, ns, action, r, reply.stage)
            && Nearer(reply.stage, stage) && 0 <= Room(reply.stage) && 0 <= Room(stage)
  {
    hide PublishTurn;
    hide SharedHolds;
    hide Established;
    hide StillNeeds;
    hide Nearer;
    TurnExact(schema, sh, ns, action, r, stage);
    TurnsDescend(schema, sh, ns, action, r, stage);
    RoomIsLeft(schema, sh, ns, action, r, stage);
    RoomIsLeft(schema, sh, ns, action, r, PublishTurn(schema, sh, ns, action, r, stage).stage);
  }

  lemma {:induction false} NeedsMetCommits(
    schema: Schema, sh: Shared, ns: Namespace, action: Digest, r: ActionResult, stage: Stage)
    requires SharedHolds(schema, sh) && Established(schema, sh, ns, action, r, stage)
    requires StillNeeds(schema, sh, ns, action, r, stage)
    ensures Commits(schema, sh, ns, action, r, stage)
    decreases Rank(stage), Room(stage), |SearchOf(stage).pending|, Inner(stage)
  {
    hide PublishTurn;
    hide SharedHolds;
    hide Established;
    hide StillNeeds;
    if stage.Commit? {
      assert CommitsWithin(schema, sh, ns, action, r, stage, 0);
    } else {
      NextTurn(schema, sh, ns, action, r, stage);
      var next := PublishTurn(schema, sh, ns, action, r, stage).stage;
      NeedsMetCommits(schema, sh, ns, action, r, next);
      var n: nat :| CommitsWithin(schema, sh, ns, action, r, next, n);
      assert CommitsWithin(schema, sh, ns, action, r, stage, n + 1);
    }
  }

  lemma RoomIsLeft(schema: Schema, sh: Shared, ns: Namespace, action: Digest, r: ActionResult, stage: Stage)
    requires Established(schema, sh, ns, action, r, stage)
    ensures 0 <= Room(stage)
  {
    hide Tree.Searching;
  }

  /**
   On stores that hold what they should, a request that meets no interference
   reaches its commit exactly when its result is publishable.
   */
  lemma PublishedExactlyWhenInPlace(schema: Schema, sh: Shared, ns: Namespace, action: Digest, r: ActionResult)
    requires SharedHolds(schema, sh)
    ensures Commits(schema, sh, ns, action, r, Begin) <==> Publishable(schema, sh, ns, action, r)
  {
    if Publishable(schema, sh, ns, action, r) {
      NeedsMetCommits(schema, sh, ns, action, r, Begin);
    }
    if Commits(schema, sh, ns, action, r, Begin) {
      var n: nat :| CommitsWithin(schema, sh, ns, action, r, Begin, n);
      CommittingNeeds(schema, sh, ns, action, r, Begin, n);
    }
  }
}
