/** What equal keys say of the files themselves. */
module TreeKey {
  import opened Base
  import opened Framing
  import opened StatusList
  import opened SourceKey
  import opened Identity
  import HashPass
  import StatCache

  // `OnDisk` is what stands at a path, apart from how it is looked at. A world shows a disk
  // when its opener, its classifier and the digests of its pass report what is there. The
  // content of an entry then tells the bytes, up to a collision, and so does the key.

  datatype OnDisk =
    | File(bytes: Bytes, readable: bool)
    | Link(target: Option<Bytes>)
    | Folder
    | DeadFolder
    | Repository(token: Bytes)
    | Device
    | Locked
    | Gone

  function ClassifierSays(n: OnDisk): Directory {
    match n
    case Folder => NoGit
    case DeadFolder => DeadGit
    case Repository(token) => Nested(token)
    case _ => NotDirectory
  }

  /** What the opener says of anything but a directory. */
  function OpenerSays(n: OnDisk): Source {
    match n
    case File(bytes, readable) => if readable then Regular(bytes) else Closed(Unreadable)
    case Link(_) => Closed(SymlinkInPath)
    case Gone => Closed(Missing)
    case Locked => Closed(Unreadable)
    case _ => Closed(NotRegular)
  }

  /** The opener and the classifier of `w` report `n` at `path`. */
  ghost predicate Reports(w: World, path: Bytes, n: OnDisk) {
    && w.directory(Trimmed(path)) == ClassifierSays(n)
    && (ClassifierSays(n).NotDirectory? ==> w.source(path) == OpenerSays(n))
    && (n.Link? ==> w.link(path) == n.target)
  }

  /** And a digest the pass returned for the path is of the bytes there. */
  ghost predicate Shows(w: World, path: Bytes, n: OnDisk) {
    && Reports(w, path, n)
    && (w.hashed(path).Some? ==> n.File? && w.hashed(path).value == w.hex(n.bytes))
  }

  /** The content is known exactly when the pass answered for the file, it is a repository, or
    * budget is left and the path is free, a link that can be read, or a file that fits. */
  lemma KnownExactly(w: World, e: StatusEntry, n: OnDisk, budget: nat)
    requires Shows(w, e.path, n)
    ensures Identified(ContentAt(w, e, budget)) <==>
      || w.hashed(e.path).Some?
      || n.Repository?
      || (budget > 0 && (n.Gone? || (n.Link? && n.target.Some?) ||
            (n.File? && n.readable && |n.bytes| <= Min(MAX_REPO_FILE_BYTES, budget))))
  {
  }

  /** What stands at a path is determined by a known content, but for the hash. */
  ghost predicate Tells(c: Content, n: OnDisk, hex: Bytes -> Bytes) {
    match c
    case Sha256(x) => n.File? && x == hex(n.bytes)
    case Symlink(x) => n.Link? && n.target.Some? && x == hex(n.target.value)
    case Deleted => n.Gone?
    case NestedRepo(_, token) => n.Repository? && token == n.token
    case _ => false
  }

  lemma KnownTells(w: World, e: StatusEntry, n: OnDisk, budget: nat)
    requires Shows(w, e.path, n) && Identified(ContentAt(w, e, budget))
    ensures Tells(ContentAt(w, e, budget), n, w.hex)
    ensures ContentAt(w, e, budget).NestedRepo? ==>
      var kind := ContentAt(w, e, budget).kind;
      (kind.NestedUntracked? <==> Untracked(e)) &&
      (kind.Submodule? <==> !Untracked(e) && w.registered(Trimmed(e.path)))
  {
  }

  /** The same file, link, repository or absence, unless two byte strings share a digest. */
  ghost predicate SameOnDisk(n: OnDisk, m: OnDisk, hex: Bytes -> Bytes) {
    match n
    case File(bytes, _) => m.File? && (bytes == m.bytes || HexCollides(hex, bytes, m.bytes))
    case Link(target) =>
      m.Link? && target.Some? && m.target.Some? &&
        (target == m.target || HexCollides(hex, target.value, m.target.value))
    case Repository(token) => m == n
    case Gone => m == n
    case _ => false
  }

  /** The content of entry `k` is known. */
  ghost predicate KnownAt(s: Seen, k: nat) { k < |s.entries| && Identified(ContentsOf(s)[k]) }

  /** Equal keys: the same thing stands at every path where one of the two trees knows what
    * does, or a hash has collided. */
  lemma SameKeySameFiles(s: Seen, t: Seen, sha: Bytes -> Digest, k: nat, n: OnDisk, m: OnDisk)
    requires Lawful(Observe(s)) && Lawful(Observe(t)) && Key(Observe(s), sha) == Key(Observe(t), sha)
    requires k < |s.entries| && s.w.hex == t.w.hex
    requires Shows(s.w, s.entries[k].path, n) && Shows(t.w, s.entries[k].path, m)
    requires KnownAt(s, k) || KnownAt(t, k)
    ensures SameOnDisk(n, m, s.w.hex) || KeyCollides(s, t, sha)
  {
    hide Contents, ContentAt, Shows, Lawful, Identified;
    SameKeySameSources(s, t, sha);
    if SameSources(s, t) {
      assert SameContent(ContentsOf(s)[k], ContentsOf(t)[k]);
      ContentsAt(s.w, s.entries, s.budget, k);
      ContentsAt(t.w, t.entries, t.budget, k);
      KnownTells(s.w, s.entries[k], n, BudgetAfter(s.w, s.entries[..k], s.budget));
      KnownTells(t.w, t.entries[k], m, BudgetAfter(t.w, t.entries[..k], t.budget));
    }
  }

  /** The two collisions that equal keys leave open: of the streams, and of the lists of paths
    * past the bound. */
  ghost predicate KeyCollides(s: Seen, t: Seen, sha: Bytes -> Digest) {
    Collides(sha, Stream(Observe(s), sha), Stream(Observe(t), sha)) || Collides(sha, Framed(s.beyond), Framed(t.beyond))
  }

  /** Whatever the pass returned for a path is part of the key. */
  lemma SameKeySameDigests(s: Seen, t: Seen, sha: Bytes -> Digest, k: nat)
    requires Lawful(Observe(s)) && Lawful(Observe(t)) && Key(Observe(s), sha) == Key(Observe(t), sha)
    requires k < |s.entries|
    ensures KeyCollides(s, t, sha) ||
      var p := s.entries[k].path;
      s.entries == t.entries && (s.w.hashed(p).Some? && t.w.hashed(p).Some? ==> s.w.hashed(p) == t.w.hashed(p))
  {
    hide Contents, Lawful;
    SameKeySameSources(s, t, sha);
    if SameSources(s, t) {
      assert SameContent(ContentsOf(s)[k], ContentsOf(t)[k]);
      ContentsAt(s.w, s.entries, s.budget, k);
      ContentsAt(t.w, t.entries, t.budget, k);
    }
  }

  // ---- through the hashing pass ----------------------------------------------------------

  /** The pass and the fold look at one disk: a file the pass opens is the file there. */
  ghost predicate OneDisk(tree: HashPass.Tree, p: Option<HashPass.Path>, n: OnDisk) {
    p.Some? && tree(p.value).Regular? ==> n == File(tree(p.value).content, tree(p.value).readable)
  }

  /** The world a pass from a truthful cache leaves shows the disk. */
  lemma PassShows(
    s: Seen, tree: HashPass.Tree, rels: seq<HashPass.Path>, cache: StatCache.Cache<HashPass.Path>,
    window: StatCache.i64, sha: Bytes -> Digest, name: Bytes -> Option<HashPass.Path>, text: Digest -> Bytes,
    path: Bytes, n: OnDisk)
    requires HashPass.Truthful(tree, cache, window, sha) && OneDisk(tree, name(path), n)
    requires Reports(s.w, path, n) && forall x :: s.w.hex(x) == text(sha(x))
    ensures Shows(SeenFrom(s, tree, rels, cache, window, sha, name, text).w, path, n)
  {
    hide HashPass.Entries;
    var q := name(path);
    if q.Some? && q.value in PassDigests(tree, rels, cache, window, sha) {
      HashPass.EntriesTrue(tree, rels, MAX_IDENTITY_BYTES, sha, cache, window, q.value);
    }
  }

  /** An edit shows. Two trees, each after a pass from a truthful cache, whose disks differ at
    * an entry's path: when one of the two knows the content there the keys differ, but for a
    * collision. */
  lemma EditShows(
    s: Seen, t: Seen, a: HashPass.Tree, b: HashPass.Tree, aRels: seq<HashPass.Path>, bRels: seq<HashPass.Path>,
    aCache: StatCache.Cache<HashPass.Path>, bCache: StatCache.Cache<HashPass.Path>, window: StatCache.i64,
    sha: Bytes -> Digest, name: Bytes -> Option<HashPass.Path>, text: Digest -> Bytes, k: nat, n: OnDisk, m: OnDisk)
    requires HashPass.Truthful(a, aCache, window, sha) && HashPass.Truthful(b, bCache, window, sha)
    requires s.w.hex == t.w.hex && forall x :: s.w.hex(x) == text(sha(x))
    requires k < |s.entries| && Reports(s.w, s.entries[k].path, n) && Reports(t.w, s.entries[k].path, m)
    requires OneDisk(a, name(s.entries[k].path), n) && OneDisk(b, name(s.entries[k].path), m)
    requires !SameOnDisk(n, m, s.w.hex)
    ensures var x := SeenFrom(s, a, aRels, aCache, window, sha, name, text);
      var y := SeenFrom(t, b, bRels, bCache, window, sha, name, text);
      Lawful(Observe(x)) && Lawful(Observe(y)) && (KnownAt(x, k) || KnownAt(y, k)) ==>
        Key(Observe(x), sha) != Key(Observe(y), sha) || KeyCollides(x, y, sha)
  {
    hide Shows, Reports, OneDisk, SameOnDisk, Lawful, Contents, Identified, KeyCollides, PassDigests;
    var x := SeenFrom(s, a, aRels, aCache, window, sha, name, text);
    var y := SeenFrom(t, b, bRels, bCache, window, sha, name, text);
    PassShows(s, a, aRels, aCache, window, sha, name, text, s.entries[k].path, n);
    PassShows(t, b, bRels, bCache, window, sha, name, text, s.entries[k].path, m);
    if Lawful(Observe(x)) && Lawful(Observe(y)) && (KnownAt(x, k) || KnownAt(y, k)) &&
      Key(Observe(x), sha) == Key(Observe(y), sha) {
      SameKeySameFiles(x, y, sha, k, n, m);
    }
  }
}
