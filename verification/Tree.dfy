/**
 Validation of an output tree: the depth-first search a publish request runs
 over directory objects, proved to answer Ok exactly for the trees it promises
 to accept.
 */
module Tree {
  import opened Encoding
  import opened Digests

  datatype DirectoryNode = DirectoryNode(name: string, mode: nat, digest: Digest)
  datatype FileNode = FileNode(name: string, mode: nat, executable: bool, digest: Digest)
  datatype SymlinkNode = SymlinkNode(name: string, mode: nat, target: string)

  datatype Directory = Directory(
    version: nat, directories: seq<DirectoryNode>, files: seq<FileNode>, symlinks: seq<SymlinkNode>)

  /** JSON, uninterpreted: decoding may fail, and encoding gives the canonical bytes. */
  datatype Json = Json(decode: Bytes -> Option<Directory>, encode: Directory -> Bytes)

  /** What one namespace can see, and what storage holds. */
  datatype View = View(visible: set<Digest>, objects: map<Digest, Bytes>)

  const MAX_DIRECTORIES := 100_000
  const MAX_DIRECTORY_BYTES := 16 * 1024 * 1024

  datatype TreeError =
    | Cycle
    | TooManyDirectories
    | DirectoryTooLarge
    | DirectoryMissing
    | NotADirectory
    | NotCanonical
    | UnsupportedVersion
    | InvalidEntry
    | DuplicateEntry
    | InvalidSymlink
    | InvalidFileDigest
    | FileMissing

  datatype Verdict = Accepted | Rejected(error: TreeError)

  // One directory object.

  predicate ValidName(name: string) {
    name != "" && name != "." && name != ".." && '/' !in name && '\\' !in name && '\0' !in name
  }

  /** Every name in a directory with its mode, in the order they are checked. */
  function Entries(dir: Directory): seq<(string, nat)> {
    seq(|dir.directories|, i requires 0 <= i < |dir.directories| => (dir.directories[i].name, dir.directories[i].mode))
    + seq(|dir.files|, i requires 0 <= i < |dir.files| => (dir.files[i].name, dir.files[i].mode))
    + seq(|dir.symlinks|, i requires 0 <= i < |dir.symlinks| => (dir.symlinks[i].name, dir.symlinks[i].mode))
  }

  /** Names are usable and distinct, modes are permission bits, and links point somewhere. */
  ghost predicate WellNamed(dir: Directory) {
    && DistinctEntries(Entries(dir))
    && (forall i | 0 <= i < |dir.symlinks| :: ValidTarget(dir.symlinks[i]))
  }

  predicate ValidTarget(link: SymlinkNode) {
    link.target != "" && '\0' !in link.target
  }

  /** Entries with usable, distinct names and permission bits for modes. */
  ghost predicate DistinctEntries(entries: seq<(string, nat)>) {
    && (forall i | 0 <= i < |entries| :: ValidName(entries[i].0) && entries[i].1 <= 0x0FFF)
    && (forall i, j | 0 <= i < j < |entries| :: entries[i].0 != entries[j].0)
  }

  /** The first `n` entries pass, and these are their names. */
  ghost predicate NamesSoFar(entries: seq<(string, nat)>, n: nat, names: set<string>) {
    && n <= |entries|
    && DistinctEntries(entries[..n])
    && names == set i | 0 <= i < n :: entries[i].0
  }

  lemma NoNames(entries: seq<(string, nat)>)
    ensures NamesSoFar(entries, 0, {})
  {
  }

  lemma AllNames(entries: seq<(string, nat)>, names: set<string>)
    requires NamesSoFar(entries, |entries|, names)
    ensures DistinctEntries(entries)
  {
  }

  /** Directories come first, then files, then links. */
  lemma EntryPositions(dir: Directory)
    ensures var entries, files, links := Entries(dir), |dir.directories|, |dir.directories| + |dir.files|;
            && |entries| == links + |dir.symlinks|
            && (forall i | 0 <= i < |dir.directories| :: entries[i] == (dir.directories[i].name, dir.directories[i].mode))
            && (forall i | 0 <= i < |dir.files| :: entries[files + i] == (dir.files[i].name, dir.files[i].mode))
            && (forall i | 0 <= i < |dir.symlinks| :: entries[links + i] == (dir.symlinks[i].name, dir.symlinks[i].mode))
  {
  }

  /** The first `n` entries pass. */
  ghost predicate PassesUpTo(dir: Directory, n: nat) {
    && n <= |Entries(dir)|
    && DistinctEntries(Entries(dir)[..n])
    && forall i | 0 <= i < |dir.symlinks| && |dir.directories| + |dir.files| + i < n :: ValidTarget(dir.symlinks[i])
  }

  /** What is wrong with an entry whose predecessors have these names. */
  ghost predicate EntryFault(entries: seq<(string, nat)>, n: nat, error: TreeError) {
    && n < |entries|
    && match error
       case InvalidEntry => !ValidName(entries[n].0) || entries[n].1 > 0x0FFF
       case DuplicateEntry =>
         && ValidName(entries[n].0) && entries[n].1 <= 0x0FFF
         && exists i :: 0 <= i < n && entries[i].0 == entries[n].0
       case _ => false
  }

  /** Entry `n` is the first that fails, and this is why. */
  ghost predicate FaultAt(dir: Directory, n: nat, error: TreeError) {
    && PassesUpTo(dir, n)
    && (EntryFault(Entries(dir), n, error) || (
          && error == InvalidSymlink && n < |Entries(dir)| && DistinctEntries(Entries(dir)[..n + 1])
          && |dir.directories| + |dir.files| <= n
          && !ValidTarget(dir.symlinks[n - |dir.directories| - |dir.files|])))
  }

  ghost predicate FirstFault(dir: Directory, error: TreeError) {
    exists n :: FaultAt(dir, n, error)
  }

  lemma PrefixOfDistinct(entries: seq<(string, nat)>, n: nat)
    requires DistinctEntries(entries) && n <= |entries|
    ensures DistinctEntries(entries[..n])
  {
  }

  lemma EntryFaultIsReal(entries: seq<(string, nat)>, n: nat, error: TreeError)
    requires EntryFault(entries, n, error)
    ensures !DistinctEntries(entries[..n + 1])
  {
    var longer := entries[..n + 1];
    assert longer[n] == entries[n];
    if error.DuplicateEntry? {
      var i :| 0 <= i < n && entries[i].0 == entries[n].0;
      assert longer[i] == entries[i];
    }
  }

  /** A directory with a fault is not well named. */
  lemma FaultIsReal(dir: Directory, n: nat, error: TreeError)
    requires FaultAt(dir, n, error)
    ensures !WellNamed(dir)
  {
    hide DistinctEntries;
    hide ValidTarget;
    if EntryFault(Entries(dir), n, error) {
      EntryFaultIsReal(Entries(dir), n, error);
      if DistinctEntries(Entries(dir)) {
        PrefixOfDistinct(Entries(dir), n + 1);
      }
    }
  }

  /** There is one first fault at most, so a refusal is determined by the directory. */
  lemma FirstFaultIsOne(dir: Directory, n: nat, error: TreeError, m: nat, other: TreeError)
    requires FaultAt(dir, n, error) && FaultAt(dir, m, other) && n <= m
    ensures n == m && error == other
  {
    var entries := Entries(dir);
    if EntryFault(entries, n, error) {
      EntryFaultIsReal(entries, n, error);
    }
    if EntryFault(entries, m, other) {
      EntryFaultIsReal(entries, m, other);
    }
  }

  /** One more entry, held against the names taken so far. */
  method CheckEntry(names: set<string>, name: string, mode: nat, ghost entries: seq<(string, nat)>, ghost n: nat)
    returns (error: Option<TreeError>, taken: set<string>)
    requires NamesSoFar(entries, n, names) && n < |entries| && entries[n] == (name, mode)
    ensures error.None? ==> NamesSoFar(entries, n + 1, taken)
    ensures error.Some? ==> EntryFault(entries, n, error.value)
  {
    if !ValidName(name) || mode > 0x0FFF {
      return Some(InvalidEntry), names;
    }
    if name in names {
      ghost var i :| 0 <= i < n && entries[i].0 == name;
      return Some(DuplicateEntry), names;
    }
    assert entries[..n + 1] == entries[..n] + [entries[n]];
    return None, names + {name};
  }

  /** A directory's own entries, checked with one set of names for all three kinds. */
  method CheckEntries(dir: Directory) returns (error: Option<TreeError>)
    ensures error.None? <==> WellNamed(dir)
    ensures error.Some? ==> FirstFault(dir, error.value)
  {
    hide DistinctEntries;
    hide Entries;
    hide ValidTarget;
    hide EntryFault;
    ghost var entries := Entries(dir);
    EntryPositions(dir);
    NoNames(entries);
    var names: set<string> := {};
    for i := 0 to |dir.directories|
      invariant NamesSoFar(entries, i, names)
    {
      error, names := CheckEntry(names, dir.directories[i].name, dir.directories[i].mode, entries, i);
      if error.Some? {
        FaultIsReal(dir, i, error.value);
        return;
      }
    }
    ghost var before := |dir.directories|;
    for i := 0 to |dir.files|
      invariant NamesSoFar(entries, before + i, names)
    {
      error, names := CheckEntry(names, dir.files[i].name, dir.files[i].mode, entries, before + i);
      if error.Some? {
        FaultIsReal(dir, before + i, error.value);
        return;
      }
    }
    ghost var linked := before + |dir.files|;
    for i := 0 to |dir.symlinks|
      invariant NamesSoFar(entries, linked + i, names)
      invariant forall k | 0 <= k < i :: ValidTarget(dir.symlinks[k])
    {
      error, names := CheckEntry(names, dir.symlinks[i].name, dir.symlinks[i].mode, entries, linked + i);
      if error.Some? {
        FaultIsReal(dir, linked + i, error.value);
        return;
      }
      if !ValidTarget(dir.symlinks[i]) {
        FaultIsReal(dir, linked + i, InvalidSymlink);
        return Some(InvalidSymlink);
      }
    }
    AllNames(entries, names);
    return None;
  }

  function FileDigests(dir: Directory): set<Digest> {
    set i | 0 <= i < |dir.files| :: dir.files[i].digest
  }

  function Children(dir: Directory): seq<Digest> {
    seq(|dir.directories|, i requires 0 <= i < |dir.directories| => dir.directories[i].digest)
  }

  /** The bytes are the canonical encoding of a version 1 directory with sound entries. */
  ghost predicate SoundDirectory(json: Json, bytes: Bytes) {
    && json.decode(bytes).Some?
    && var dir := json.decode(bytes).value;
       && json.encode(dir) == bytes
       && dir.version == 1
       && WellNamed(dir)
       && (forall i | 0 <= i < |dir.files| :: ValidDigest(dir.files[i].digest))
  }

  /** A directory object is present, small enough and sound, and all its files are visible. */
  ghost predicate GoodNode(json: Json, view: View, d: Digest) {
    && d.size <= MAX_DIRECTORY_BYTES
    && d in view.visible
    && d in view.objects
    && SoundDirectory(json, view.objects[d])
    && FileDigests(json.decode(view.objects[d]).value) <= view.visible
  }

  /** The directories a stored object lists; none for an object that is absent or is no directory. */
  function Kids(json: Json, objects: map<Digest, Bytes>, d: Digest): seq<Digest> {
    if d in objects && json.decode(objects[d]).Some? then Children(json.decode(objects[d]).value) else []
  }

  // Reachability.

  ghost predicate IsPath(json: Json, objects: map<Digest, Bytes>, p: seq<Digest>) {
    p != [] && forall i | 0 <= i < |p| - 1 :: p[i + 1] in Kids(json, objects, p[i])
  }

  /** Some path leads from `a` to `b`; the empty path leads from `a` to itself. */
  ghost predicate Reaches(json: Json, objects: map<Digest, Bytes>, a: Digest, b: Digest) {
    exists p :: IsPath(json, objects, p) && p[0] == a && p[|p| - 1] == b
  }

  /** Some path of at least one edge leads from `a` to `b`. */
  ghost predicate ReachesBelow(json: Json, objects: map<Digest, Bytes>, a: Digest, b: Digest) {
    exists p :: IsPath(json, objects, p) && |p| > 1 && p[0] == a && p[|p| - 1] == b
  }

  /** The directories reachable from `root` are exactly these. */
  ghost predicate IsReachableSet(json: Json, objects: map<Digest, Bytes>, root: Digest, nodes: set<Digest>) {
    forall d :: d in nodes <==> Reaches(json, objects, root, d)
  }

  ghost predicate AllReachable(json: Json, objects: map<Digest, Bytes>, root: Digest, nodes: set<Digest>) {
    forall d | d in nodes :: Reaches(json, objects, root, d)
  }

  lemma ReachesItself(json: Json, objects: map<Digest, Bytes>, a: Digest)
    ensures Reaches(json, objects, a, a)
  {
    assert IsPath(json, objects, [a]);
  }

  lemma ReachesChild(json: Json, objects: map<Digest, Bytes>, a: Digest, b: Digest, c: Digest)
    requires Reaches(json, objects, a, b) && c in Kids(json, objects, b)
    ensures ReachesBelow(json, objects, a, c) && Reaches(json, objects, a, c)
  {
    var p :| IsPath(json, objects, p) && p[0] == a && p[|p| - 1] == b;
    LongerPath(json, objects, p, c);
    hide IsPath;
    assert IsPath(json, objects, p + [c]) && (p + [c])[0] == a && (p + [c])[|p|] == c;
  }

  lemma LongerPath(json: Json, objects: map<Digest, Bytes>, p: seq<Digest>, c: Digest)
    requires IsPath(json, objects, p) && c in Kids(json, objects, p[|p| - 1])
    ensures IsPath(json, objects, p + [c])
  {
    hide Kids;
    var q := p + [c];
    forall i | 0 <= i < |q| - 1 ensures q[i + 1] in Kids(json, objects, q[i]) {
      if i < |p| - 1 {
        assert p[i + 1] in Kids(json, objects, p[i]);
      }
    }
  }

  /** A set closed under children holds everything its members reach. */
  lemma {:induction false} ClosedUnderPath(json: Json, objects: map<Digest, Bytes>, nodes: set<Digest>, p: seq<Digest>)
    requires IsPath(json, objects, p) && p[0] in nodes
    requires forall d, k | d in nodes && k in Kids(json, objects, d) :: k in nodes
    ensures p[|p| - 1] in nodes
  {
    if |p| > 1 {
      assert p[1] in Kids(json, objects, p[0]);
      var q := p[1..];
      forall i | 0 <= i < |q| - 1 ensures q[i + 1] in Kids(json, objects, q[i]) {
        assert p[i + 1 + 1] in Kids(json, objects, p[i + 1]);
      }
      ClosedUnderPath(json, objects, nodes, q);
    }
  }

  // The search.

  datatype Visit = Enter(digest: Digest) | Exit(digest: Digest)

  /** What the search holds between two turns; `finished` lists the exits so far, in order. */
  datatype Search = Search(pending: seq<Visit>, visiting: set<Digest>, seen: set<Digest>, finished: seq<Digest>)

  function Start(root: Digest): Search {
    Search([Enter(root)], {}, {}, [])
  }

  /** `k` is finished, or still to come above position `i` of the stack. */
  ghost predicate Awaited(s: Search, i: int, k: Digest) {
    k in s.seen || exists j :: 0 <= j < |s.pending| && i < j && s.pending[j].digest == k
  }

  /** The stack spells out `visiting`, and every child of a directory on it is accounted for above it. */
  ghost predicate Coherent(json: Json, objects: map<Digest, Bytes>, root: Digest, s: Search) {
    && (forall d :: d in s.visiting <==> Exit(d) in s.pending)
    && (forall i, j | 0 <= i < j < |s.pending| && s.pending[i].Exit? && s.pending[j].Exit? ::
          s.pending[i].digest != s.pending[j].digest)
    && s.visiting !! s.seen
    && Awaited(s, -1, root)
    && (forall i, k | 0 <= i < |s.pending| && s.pending[i].Exit? && k in Kids(json, objects, s.pending[i].digest) ::
          Awaited(s, i, k))
  }

  /** Finished directories were finished after all their children. */
  ghost predicate Ordered(json: Json, objects: map<Digest, Bytes>, s: Search) {
    && (forall d :: d in s.seen <==> d in s.finished)
    && (forall i, k | 0 <= i < |s.finished| && k in Kids(json, objects, s.finished[i]) :: k in s.finished[..i])
  }

  /** Everything met so far was reached from the root, and everything above an exit from that exit. */
  ghost predicate Reached(json: Json, objects: map<Digest, Bytes>, root: Digest, s: Search) {
    && (forall i | 0 <= i < |s.pending| :: Reaches(json, objects, root, s.pending[i].digest))
    && (forall d | d in s.seen :: Reaches(json, objects, root, d))
    && (forall i, j | 0 <= i < j < |s.pending| && s.pending[i].Exit? ::
          ReachesBelow(json, objects, s.pending[i].digest, s.pending[j].digest))
  }

  /** What was entered passed its check. */
  ghost predicate Passed(json: Json, view: View, s: Search) {
    forall d | d in s.visiting || d in s.seen :: GoodNode(json, view, d)
  }

  /** The search after the exit on top of the stack. */
  function AfterExit(s: Search): Search
    requires s.pending != [] && s.pending[|s.pending| - 1].Exit?
  {
    var d := s.pending[|s.pending| - 1].digest;
    Search(s.pending[..|s.pending| - 1], s.visiting - {d}, s.seen + {d}, s.finished + [d])
  }

  /** The search after an entry that was finished before. */
  function AfterSkip(s: Search): Search
    requires s.pending != []
  {
    s.(pending := s.pending[..|s.pending| - 1])
  }

  /** The search after entering a directory with these children. */
  function AfterEnter(s: Search, kids: seq<Digest>): Search
    requires s.pending != []
  {
    var top := |s.pending| - 1;
    var d := s.pending[top].digest;
    s.(pending := s.pending[..top] + [Exit(d)] + seq(|kids|, i requires 0 <= i < |kids| => Enter(kids[i])),
       visiting := s.visiting + {d})
  }

  lemma ExitCoherent(json: Json, objects: map<Digest, Bytes>, root: Digest, s: Search)
    requires s.pending != [] && s.pending[|s.pending| - 1].Exit?
    requires Coherent(json, objects, root, s) && Ordered(json, objects, s)
    ensures Coherent(json, objects, root, AfterExit(s)) && Ordered(json, objects, AfterExit(s))
  {
    var top, t := |s.pending| - 1, AfterExit(s);
    var d := s.pending[top].digest;
    assert s.pending == t.pending + [Exit(d)];
    forall i, k | -1 <= i < top && Awaited(s, i, k) ensures Awaited(t, i, k) {
      if k !in t.seen {
        var j :| 0 <= j < |s.pending| && i < j && s.pending[j].digest == k;
        assert t.pending[j].digest == k;
      }
    }
    forall e ensures e in t.visiting <==> Exit(e) in t.pending {
      if e == d {
        assert forall i | 0 <= i < top :: s.pending[i] != Exit(d);
      }
    }
    forall k | k in Kids(json, objects, d) ensures k in s.finished {
      assert Awaited(s, top, k);
    }
    forall i, k | 0 <= i < |t.finished| && k in Kids(json, objects, t.finished[i]) ensures k in t.finished[..i] {
      if i < |s.finished| {
        assert t.finished[..i] == s.finished[..i];
      } else {
        assert t.finished[..i] == s.finished;
      }
    }
  }

  lemma SkipCoherent(json: Json, objects: map<Digest, Bytes>, root: Digest, s: Search)
    requires s.pending != [] && s.pending[|s.pending| - 1].Enter?
    requires s.pending[|s.pending| - 1].digest in s.seen
    requires Coherent(json, objects, root, s)
    ensures Coherent(json, objects, root, AfterSkip(s))
  {
    var top, t := |s.pending| - 1, AfterSkip(s);
    assert s.pending == t.pending + [s.pending[top]];
    forall i, k | -1 <= i < top && Awaited(s, i, k) ensures Awaited(t, i, k) {
      if k !in t.seen {
        var j :| 0 <= j < |s.pending| && i < j && s.pending[j].digest == k;
        assert t.pending[j].digest == k;
      }
    }
  }

  lemma EnterCoherent(json: Json, objects: map<Digest, Bytes>, root: Digest, s: Search, kids: seq<Digest>)
    requires s.pending != [] && s.pending[|s.pending| - 1].Enter?
    requires s.pending[|s.pending| - 1].digest !in s.seen + s.visiting
    requires kids == Kids(json, objects, s.pending[|s.pending| - 1].digest)
    requires Coherent(json, objects, root, s)
    ensures Coherent(json, objects, root, AfterEnter(s, kids))
  {
    hide Kids;
    EnterStack(s, kids);
    hide AfterEnter;
    var top, t := |s.pending| - 1, AfterEnter(s, kids);
    var d := s.pending[top].digest;
    forall i, k | -1 <= i < top && Awaited(s, i, k) ensures Awaited(t, i, k) {
      if k !in t.seen {
        var j :| 0 <= j < |s.pending| && i < j && s.pending[j].digest == k;
        assert t.pending[j].digest == k;
      }
    }
    forall k | k in kids ensures Awaited(t, top, k) {
      var j :| 0 <= j < |kids| && kids[j] == k;
      assert t.pending[top + 1 + j].digest == k;
    }
    forall e ensures e in t.visiting <==> Exit(e) in t.pending {
      assert t.pending[top] == Exit(d);
      assert Exit(e) in s.pending ==> Exit(e) in s.pending[..top];
    }
    assert Exit(d) !in s.pending;
  }

  /** What entering leaves on the stack: what was there, an exit, and the children. */
  lemma EnterStack(s: Search, kids: seq<Digest>)
    requires s.pending != []
    ensures var top, t := |s.pending| - 1, AfterEnter(s, kids);
            && t.seen == s.seen && t.visiting == s.visiting + {s.pending[top].digest} && |t.pending| == top + 1 + |kids|
            && (forall i | 0 <= i < top :: t.pending[i] == s.pending[i])
            && t.pending[top] == Exit(s.pending[top].digest)
            && (forall i | top < i < |t.pending| :: t.pending[i] == Enter(kids[i - top - 1]) && t.pending[i].digest in kids)
  {
  }

  /** The children are reached through the directory entered, and so from every exit below it. */
  lemma ChildrenReached(json: Json, objects: map<Digest, Bytes>, root: Digest, s: Search, kids: seq<Digest>)
    requires s.pending != [] && s.pending[|s.pending| - 1].Enter?
    requires kids == Kids(json, objects, s.pending[|s.pending| - 1].digest)
    requires Reached(json, objects, root, s)
    ensures var top := |s.pending| - 1;
            forall k | k in kids ::
              && Reaches(json, objects, root, k)
              && ReachesBelow(json, objects, s.pending[top].digest, k)
              && (forall i | 0 <= i < top && s.pending[i].Exit? :: ReachesBelow(json, objects, s.pending[i].digest, k))
  {
    var top := |s.pending| - 1;
    var d := s.pending[top].digest;
    forall k | k in kids ensures Reaches(json, objects, root, k) && ReachesBelow(json, objects, d, k) {
      ReachesChild(json, objects, root, d, k);
      ReachesItself(json, objects, d);
      ReachesChild(json, objects, d, d, k);
    }
    forall i, k | 0 <= i < top && s.pending[i].Exit? && k in kids
      ensures ReachesBelow(json, objects, s.pending[i].digest, k)
    {
      ReachesChild(json, objects, s.pending[i].digest, d, k);
    }
  }

  lemma EnterReached(json: Json, objects: map<Digest, Bytes>, root: Digest, s: Search, kids: seq<Digest>)
    requires s.pending != [] && s.pending[|s.pending| - 1].Enter?
    requires kids == Kids(json, objects, s.pending[|s.pending| - 1].digest)
    requires Reached(json, objects, root, s)
    ensures Reached(json, objects, root, AfterEnter(s, kids))
  {
    hide Reaches;
    hide ReachesBelow;
    hide Kids;
    hide AfterEnter;
    ChildrenReached(json, objects, root, s, kids);
    EnterStack(s, kids);
  }

  /** The invariant of the search on a fixed view. */
  ghost predicate Searching(json: Json, view: View, root: Digest, s: Search) {
    && Coherent(json, view.objects, root, s)
    && Ordered(json, view.objects, s)
    && Reached(json, view.objects, root, s)
    && Passed(json, view, s)
  }

  lemma StartSearching(json: Json, view: View, root: Digest)
    ensures Searching(json, view, root, Start(root))
  {
    assert Start(root).pending[0].digest == root;
    ReachesItself(json, view.objects, root);
  }

  lemma ExitSearching(json: Json, view: View, root: Digest, s: Search)
    requires s.pending != [] && s.pending[|s.pending| - 1].Exit?
    requires Searching(json, view, root, s)
    ensures Searching(json, view, root, AfterExit(s))
    ensures |AfterExit(s).seen| + |AfterExit(s).visiting| == |s.seen| + |s.visiting|
  {
    ExitCoherent(json, view.objects, root, s);
    var d := s.pending[|s.pending| - 1].digest;
    assert Exit(d) in s.pending;
  }

  lemma SkipSearching(json: Json, view: View, root: Digest, s: Search)
    requires s.pending != [] && s.pending[|s.pending| - 1].Enter?
    requires s.pending[|s.pending| - 1].digest in s.seen
    requires Searching(json, view, root, s)
    ensures Searching(json, view, root, AfterSkip(s))
  {
    SkipCoherent(json, view.objects, root, s);
  }

  lemma EnterSearching(json: Json, view: View, root: Digest, s: Search, kids: seq<Digest>)
    requires s.pending != [] && s.pending[|s.pending| - 1].Enter?
    requires s.pending[|s.pending| - 1].digest !in s.seen + s.visiting
    requires GoodNode(json, view, s.pending[|s.pending| - 1].digest)
    requires kids == Kids(json, view.objects, s.pending[|s.pending| - 1].digest)
    requires Searching(json, view, root, s)
    ensures Searching(json, view, root, AfterEnter(s, kids))
  {
    EnterCoherent(json, view.objects, root, s, kids);
    EnterReached(json, view.objects, root, s, kids);
  }

  /** Entering a directory that is still being visited closes a real cycle. */
  lemma CycleIsReal(json: Json, view: View, root: Digest, s: Search)
    requires s.pending != [] && s.pending[|s.pending| - 1].Enter?
    requires s.pending[|s.pending| - 1].digest in s.visiting
    requires Searching(json, view, root, s)
    ensures Justified(json, view, root, Cycle)
  {
    var top := |s.pending| - 1;
    var d := s.pending[top].digest;
    var i :| 0 <= i < |s.pending| && s.pending[i] == Exit(d);
    assert ReachesBelow(json, view.objects, s.pending[i].digest, s.pending[top].digest);
  }

  /** Everything entered counts against the bound once. */
  lemma BoundIsReal(json: Json, view: View, root: Digest, s: Search)
    requires s.pending != [] && s.pending[|s.pending| - 1].Enter?
    requires s.pending[|s.pending| - 1].digest !in s.seen + s.visiting
    requires |s.seen| + |s.visiting| + 1 > MAX_DIRECTORIES
    requires Searching(json, view, root, s)
    ensures Justified(json, view, root, TooManyDirectories)
  {
    hide Searching;
    hide Reaches;
    hide GoodNode;
    hide ReachesBelow;
    MetReached(json, view, root, s);
    var d := s.pending[|s.pending| - 1].digest;
    CountUnion(s.seen, s.visiting, d);
    assert AllReachable(json, view.objects, root, s.seen + s.visiting + {d});
  }

  lemma CountUnion(a: set<Digest>, b: set<Digest>, d: Digest)
    requires a !! b && d !in a + b
    ensures |a + b + {d}| == |a| + |b| + 1
  {
  }

  lemma MetReached(json: Json, view: View, root: Digest, s: Search)
    requires Searching(json, view, root, s)
    ensures s.seen !! s.visiting
    ensures forall e | e in s.seen || e in s.visiting || (s.pending != [] && e == s.pending[|s.pending| - 1].digest) ::
              Reaches(json, view.objects, root, e)
  {
  }

  lemma BadNodeIsReal(json: Json, view: View, root: Digest, s: Search, error: TreeError)
    requires s.pending != [] && Searching(json, view, root, s)
    requires Fault(json, view, s.pending[|s.pending| - 1].digest, error)
    ensures Justified(json, view, root, error)
  {
  }

  /** A search that has run dry holds every reachable directory, closed under children. */
  lemma DryMeansComplete(json: Json, view: View, root: Digest, s: Search)
    requires s.pending == [] && Searching(json, view, root, s)
    ensures IsReachableSet(json, view.objects, root, s.seen) && AllGood(json, view, s.seen)
    ensures |s.seen| <= MAX_DIRECTORIES ==> Acceptable(json, view, root)
  {
    var objects := view.objects;
    ClosedWhenDry(json, objects, root, s);
    forall d, p | IsPath(json, objects, p) && p[0] == root && p[|p| - 1] == d ensures d in s.seen {
      ClosedUnderPath(json, objects, s.seen, p);
    }
    forall d, p | d in s.seen && IsPath(json, objects, p) && |p| > 1 && p[0] == d ensures p[|p| - 1] != d {
      NoLoop(json, objects, s, d, p);
    }
  }

  lemma ClosedWhenDry(json: Json, objects: map<Digest, Bytes>, root: Digest, s: Search)
    requires s.pending == [] && Coherent(json, objects, root, s) && Ordered(json, objects, s)
    ensures root in s.seen
    ensures forall d, k | d in s.seen && k in Kids(json, objects, d) :: k in s.seen
  {
  }

  /** Finishing order runs against every edge, so no path returns to where it began. */
  lemma NoLoop(json: Json, objects: map<Digest, Bytes>, s: Search, d: Digest, p: seq<Digest>)
    requires Ordered(json, objects, s) && d in s.seen
    requires IsPath(json, objects, p) && |p| > 1 && p[0] == d
    ensures p[|p| - 1] != d
  {
    var n := FirstIndex(s.finished, d);
    assert p[1] in Kids(json, objects, s.finished[n]);
    var before := set k | k in s.finished[..n];
    assert p[1] in before && d !in before;
    forall e, k | e in before && k in Kids(json, objects, e) ensures k in before {
      var i :| 0 <= i < n && s.finished[i] == e;
      assert k in s.finished[..i];
    }
    var q := p[1..];
    forall i | 0 <= i < |q| - 1 ensures q[i + 1] in Kids(json, objects, q[i]) {
      assert p[i + 1 + 1] in Kids(json, objects, p[i + 1]);
    }
    ClosedUnderPath(json, objects, before, q);
  }

  ghost function FirstIndex(s: seq<Digest>, d: Digest): (n: nat)
    requires d in s
    ensures n < |s| && s[n] == d && d !in s[..n]
  {
    if s[0] == d then 0
    else
      assert d in s[1..];
      var n := FirstIndex(s[1..], d);
      assert s[..n + 1] == [s[0]] + s[1..][..n];
      n + 1
  }

  /** What a rejection says about one directory object. */
  ghost predicate Fault(json: Json, view: View, d: Digest, error: TreeError) {
    match error
    case DirectoryTooLarge => d.size > MAX_DIRECTORY_BYTES
    case DirectoryMissing => d !in view.visible || d !in view.objects
    case NotADirectory => d in view.objects && json.decode(view.objects[d]).None?
    case Cycle => false
    case TooManyDirectories => false
    case _ =>
      && d in view.objects && json.decode(view.objects[d]).Some?
      && ContentFault(json, view, view.objects[d], json.decode(view.objects[d]).value, error)
  }

  ghost predicate ContentFault(json: Json, view: View, bytes: Bytes, dir: Directory, error: TreeError) {
    match error
    case NotCanonical => json.encode(dir) != bytes
    case UnsupportedVersion => dir.version != 1
    case InvalidEntry => !WellNamed(dir) && FirstFault(dir, error)
    case DuplicateEntry => !WellNamed(dir) && FirstFault(dir, error)
    case InvalidSymlink => !WellNamed(dir) && FirstFault(dir, error)
    case InvalidFileDigest => exists i :: 0 <= i < |dir.files| && !ValidDigest(dir.files[i].digest)
    case FileMissing => !(FileDigests(dir) <= view.visible)
    case _ => false
  }

  /** What a rejection says about the graph. */
  ghost predicate Justified(json: Json, view: View, root: Digest, error: TreeError) {
    match error
    case Cycle => exists d :: Reaches(json, view.objects, root, d) && ReachesBelow(json, view.objects, d, d)
    case TooManyDirectories =>
      exists nodes :: AllReachable(json, view.objects, root, nodes) && |nodes| > MAX_DIRECTORIES
    case _ => exists d :: Reaches(json, view.objects, root, d) && Fault(json, view, d, error)
  }

  /** Directories that pass and lie on no cycle. */
  ghost predicate AllGood(json: Json, view: View, nodes: set<Digest>) {
    forall d | d in nodes :: GoodNode(json, view, d) && !ReachesBelow(json, view.objects, d, d)
  }

  /** What a publish request needs of an output tree: the graph below its root is acyclic, bounded and sound. */
  ghost predicate Acceptable(json: Json, view: View, root: Digest) {
    exists nodes ::
      IsReachableSet(json, view.objects, root, nodes) && |nodes| <= MAX_DIRECTORIES && AllGood(json, view, nodes)
  }

  lemma FaultyIsNotGood(json: Json, view: View, error: TreeError)
    ensures forall d | Fault(json, view, d, error) :: !GoodNode(json, view, d)
  {
    hide WellNamed;
    hide ValidDigest;
  }

  /** No tree is both acceptable and justly rejected. */
  lemma JustifiedExcludesAcceptable(json: Json, view: View, root: Digest, error: TreeError)
    requires Justified(json, view, root, error)
    ensures !Acceptable(json, view, root)
  {
    FaultyIsNotGood(json, view, error);
    hide GoodNode;
    hide Fault;
    hide Reaches;
    hide ReachesBelow;
    forall nodes | IsReachableSet(json, view.objects, root, nodes) && AllGood(json, view, nodes)
      ensures |nodes| > MAX_DIRECTORIES
    {
      var more :| AllReachable(json, view.objects, root, more) && |more| > MAX_DIRECTORIES;
      assert more <= nodes;
      assert |nodes - more| == |nodes| - |more|;
    }
  }

  /** Check the directory object `d` names and list its children. */
  method CheckDirectory(json: Json, view: View, d: Digest) returns (error: Option<TreeError>, kids: seq<Digest>)
    ensures error.None? <==> GoodNode(json, view, d)
    ensures error.None? ==> kids == Kids(json, view.objects, d)
    ensures error.Some? ==> Fault(json, view, d, error.value)
  {
    kids := [];
    if d.size > MAX_DIRECTORY_BYTES {
      return Some(DirectoryTooLarge), kids;
    }
    if d !in view.visible {
      return Some(DirectoryMissing), kids;
    }
    if d !in view.objects {
      return Some(DirectoryMissing), kids;
    }
    var bytes := view.objects[d];
    var decoded := json.decode(bytes);
    if decoded.None? {
      return Some(NotADirectory), kids;
    }
    var dir := decoded.value;
    if json.encode(dir) != bytes {
      return Some(NotCanonical), kids;
    }
    if dir.version != 1 {
      return Some(UnsupportedVersion), kids;
    }
    error := CheckEntries(dir);
    if error.Some? {
      return;
    }
    var files: set<Digest> := {};
    for i := 0 to |dir.files|
      invariant forall k | 0 <= k < i :: ValidDigest(dir.files[k].digest)
      invariant files == set k | 0 <= k < i :: dir.files[k].digest
    {
      if !ValidDigest(dir.files[i].digest) {
        return Some(InvalidFileDigest), kids;
      }
      files := files + {dir.files[i].digest};
    }
    assert files == FileDigests(dir);
    SubsetByCount(files, view.visible);
    if |files * view.visible| != |files| {
      return Some(FileMissing), kids;
    }
    return None, Children(dir);
  }

  /** Counting the visible members of a set tells whether all of them are. */
  lemma SubsetByCount<T>(a: set<T>, b: set<T>)
    ensures |a * b| == |a| <==> a <= b
  {
    assert a == a * b + (a - b);
    if a <= b {
      assert a * b == a;
    } else {
      var x :| x in a - b;
      assert |a - b| > 0;
    }
  }

  /**
   The search: Ok exactly when the graph below `root` has no cycle, has at most
   100,000 directories, and every one of them passes; and every rejection is
   true of the graph.
   */
  method ValidateTree(json: Json, view: View, root: Digest) returns (verdict: Verdict)
    ensures verdict.Accepted? <==> Acceptable(json, view, root)
    ensures verdict.Rejected? ==> Justified(json, view, root, verdict.error)
  {
    hide Searching;
    hide Justified;
    hide Acceptable;
    hide GoodNode;
    hide Kids;
    var pending := [Enter(root)];
    var visiting: set<Digest> := {};
    var seen: set<Digest> := {};
    ghost var s := Start(root);
    StartSearching(json, view, root);
    while pending != []
      invariant s.pending == pending && s.visiting == visiting && s.seen == seen
      invariant Searching(json, view, root, s)
      invariant |seen| + |visiting| <= MAX_DIRECTORIES
      decreases MAX_DIRECTORIES - |seen| - |visiting|, |pending|
    {
      var visit := pending[|pending| - 1];
      pending := pending[..|pending| - 1];
      var d := visit.digest;
      if visit.Exit? {
        ExitSearching(json, view, root, s);
        s := AfterExit(s);
        visiting := visiting - {d};
        seen := seen + {d};
        continue;
      }
      if d in seen {
        SkipSearching(json, view, root, s);
        s := AfterSkip(s);
        continue;
      }
      if d in visiting {
        CycleIsReal(json, view, root, s);
        JustifiedExcludesAcceptable(json, view, root, Cycle);
        return Rejected(Cycle);
      }
      visiting := visiting + {d};
      if |seen| + |visiting| > MAX_DIRECTORIES {
        BoundIsReal(json, view, root, s);
        JustifiedExcludesAcceptable(json, view, root, TooManyDirectories);
        return Rejected(TooManyDirectories);
      }
      var error, kids := CheckDirectory(json, view, d);
      if error.Some? {
        BadNodeIsReal(json, view, root, s, error.value);
        JustifiedExcludesAcceptable(json, view, root, error.value);
        return Rejected(error.value);
      }
      EnterSearching(json, view, root, s, kids);
      s := AfterEnter(s, kids);
      pending := pending + [Exit(d)] + seq(|kids|, i requires 0 <= i < |kids| => Enter(kids[i]));
    }
    DryMeansComplete(json, view, root, s);
    return Accepted;
  }
}
