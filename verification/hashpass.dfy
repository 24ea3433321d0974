/** One hashing pass over a quiet tree: what it reads, reuses, charges and rewrites. */
module HashPass {
  import opened Base
  import opened StatCache
  import RacyCache

  const MAX_REPO_FILE_BYTES: nat := 8 * 1024 * 1024

  type Path = string

  /** A path as the no-follow opener finds it: nothing it can open, a file without read
    * permission included, or a regular file whose bytes may still fail to read. */
  datatype Node = Absent | Regular(key: StatKey, content: seq<byte>, readable: bool)

  /** The tree during a pass. */
  type Tree = Path -> Node

  datatype Counters = Counters(hashed: nat, bytesHashed: nat, overBudget: nat, reused: nat, bytesReused: nat, racy: nat)

  /** The pass looks at the file: it opens and is within the per-file cap. */
  predicate Eligible(n: Node) { n.Regular? && n.key.size <= MAX_REPO_FILE_BYTES }

  // ---- the simple form: no cache -----------------------------------------------------------

  /** The budget left after `rels`; a file that does not fit is not charged. */
  function LeftAfter(tree: Tree, rels: seq<Path>, budget: nat): (left: nat)
    ensures left <= budget
  {
    if rels == [] then budget
    else
      var left, n := LeftAfter(tree, rels[..|rels| - 1], budget), tree(rels[|rels| - 1]);
      if Eligible(n) && n.key.size <= left then left - n.key.size else left
  }

  /** The file at the end of `rels` is charged to the budget. */
  predicate Charged(tree: Tree, rels: seq<Path>, budget: nat) {
    && rels != []
    && Eligible(tree(rels[|rels| - 1]))
    && tree(rels[|rels| - 1]).key.size <= LeftAfter(tree, rels[..|rels| - 1], budget)
  }

  /** Hashing every file that fits, directly. */
  function Direct(tree: Tree, rels: seq<Path>, budget: nat, sha: seq<byte> -> Digest): map<Path, Digest> {
    if rels == [] then map[]
    else
      var init, p := rels[..|rels| - 1], rels[|rels| - 1];
      var rest := Direct(tree, init, budget, sha);
      if Charged(tree, rels, budget) && tree(p).readable then rest[p := sha(tree(p).content)] else rest
  }

  // ---- the pass with a cache ------------------------------------------------------------------

  predicate Reused(tree: Tree, p: Path, cache: Cache<Path>, window: i64) {
    tree(p).Regular? && cache.Vouches(p, tree(p).key, window)
  }

  /** The entries a pass ends with: a vouched entry, or the digest of the bytes read. */
  function Entries(
    tree: Tree, rels: seq<Path>, budget: nat, sha: seq<byte> -> Digest, cache: Cache<Path>,
    window: i64): map<Path, Entry>
  {
    if rels == [] then map[]
    else
      var init, p := rels[..|rels| - 1], rels[|rels| - 1];
      var rest := Entries(tree, init, budget, sha, cache, window);
      if !Charged(tree, rels, budget) then rest
      else if Reused(tree, p, cache, window) then rest[p := Entry(tree(p).key, cache.entries[p].digest)]
      else if tree(p).readable then rest[p := Entry(tree(p).key, sha(tree(p).content))]
      else rest
  }

  function Digests(entries: map<Path, Entry>): map<Path, Digest> {
    map p | p in entries :: entries[p].digest
  }

  /** First occurrences only, in order. */
  function Unique(rels: seq<Path>): (r: seq<Path>)
    ensures forall p :: p in r <==> p in rels
    ensures Distinct(r)
  {
    if rels == [] then []
    else
      var init, p := Unique(rels[..|rels| - 1]), rels[|rels| - 1];
      if p in init then init else init + [p]
  }

  /** The first `p` of a list comes before the first `q`. */
  ghost predicate Earlier(rels: seq<Path>, p: Path, q: Path) {
    exists k :: 0 <= k < |rels| && rels[k] == p && q !in rels[..k + 1]
  }

  /** The caller's order is kept, so what comes first is charged first. */
  lemma {:induction false} UniqueKeepsOrder(rels: seq<Path>, i: nat, j: nat)
    requires i < j < |Unique(rels)|
    ensures Earlier(rels, Unique(rels)[i], Unique(rels)[j])
    decreases |rels|
  {
    var init, r := rels[..|rels| - 1], Unique(rels);
    var before := Unique(init);
    if j < |before| {
      UniqueKeepsOrder(init, i, j);
      var k :| 0 <= k < |init| && init[k] == r[i] && r[j] !in init[..k + 1];
      assert rels[k] == r[i] && rels[..k + 1] == init[..k + 1];
    } else {
      assert r[i] == before[i] && before[i] in init && r[j] !in init;
      var k :| 0 <= k < |init| && init[k] == r[i];
      assert rels[k] == r[i] && rels[..k + 1] == init[..k + 1];
      assert r[j] !in init[..k + 1];
    }
  }

  ghost predicate Distinct(s: seq<Path>) {
    forall i, j :: 0 <= i < j < |s| ==> s[i] != s[j]
  }

  /** Vouched entries hold the hash of the file's bytes: what every reachable cache does. */
  ghost predicate Truthful(tree: Tree, cache: Cache<Path>, window: i64, sha: seq<byte> -> Digest) {
    forall p :: Reused(tree, p, cache, window) ==> cache.entries[p].digest == sha(tree(p).content)
  }

  /** A reused file that is charged can be read. Reading it is exactly what is not done. */
  ghost predicate ReusedReadable(tree: Tree, rels: seq<Path>, budget: nat, cache: Cache<Path>, window: i64) {
    forall k :: 0 < k <= |rels| && Charged(tree, rels[..k], budget) && Reused(tree, rels[k - 1], cache, window) ==>
      tree(rels[k - 1]).readable
  }

  lemma {:induction false} EntriesWithin(
    tree: Tree, rels: seq<Path>, budget: nat, sha: seq<byte> -> Digest, cache: Cache<Path>, window: i64)
    ensures forall p :: p in Entries(tree, rels, budget, sha, cache, window) ==> p in rels && tree(p).Regular?
    ensures forall p :: p in Direct(tree, rels, budget, sha) ==> p in rels && tree(p).Regular?
  {
    if rels != [] {
      var init := rels[..|rels| - 1];
      assert forall p :: p in init ==> p in rels;
      EntriesWithin(tree, init, budget, sha, cache, window);
    }
  }

  /** A pass from a truthful cache answers with the hash of the bytes there. */
  lemma {:induction false} EntriesTrue(
    tree: Tree, rels: seq<Path>, budget: nat, sha: seq<byte> -> Digest, cache: Cache<Path>, window: i64, p: Path)
    requires Truthful(tree, cache, window, sha) && p in Entries(tree, rels, budget, sha, cache, window)
    ensures tree(p).Regular? && Entries(tree, rels, budget, sha, cache, window)[p].digest == sha(tree(p).content)
    decreases |rels|
  {
    var init := rels[..|rels| - 1];
    if p in Entries(tree, init, budget, sha, cache, window) {
      EntriesTrue(tree, init, budget, sha, cache, window, p);
    }
  }

  function Put(m: map<Path, Digest>, p: Path, x: Option<Digest>): map<Path, Digest> {
    if x.Some? then m[p := x.value] else m
  }

  lemma PutEqual(a: map<Path, Digest>, b: map<Path, Digest>, p: Path, x: Option<Digest>, y: Option<Digest>)
    requires p !in a && p !in b
    ensures Put(a, p, x) == Put(b, p, y) <==> a == b && x == y
  {
    assert a == Put(a, p, x) - {p};
    assert b == Put(b, p, y) - {p};
    assert (p in Put(a, p, x) <==> x.Some?) && (p in Put(b, p, y) <==> y.Some?);
    if Put(a, p, x) == Put(b, p, y) && x.Some? {
      assert x.value == Put(a, p, x)[p] == Put(b, p, y)[p] == y.value;
    }
  }

  /** What the last path adds to a pass's map, and to the map of a pass with no cache. */
  lemma LastAdds(tree: Tree, rels: seq<Path>, budget: nat, sha: seq<byte> -> Digest, cache: Cache<Path>, window: i64)
    requires rels != []
    ensures var init, p := rels[..|rels| - 1], rels[|rels| - 1];
      var y := if Charged(tree, rels, budget) && tree(p).readable then Some(sha(tree(p).content)) else None;
      && Digests(Entries(tree, rels, budget, sha, cache, window))
           == Put(Digests(Entries(tree, init, budget, sha, cache, window)), p,
             Added(tree, rels, budget, sha, cache, window))
      && Direct(tree, rels, budget, sha) == Put(Direct(tree, init, budget, sha), p, y)
  {
  }

  /** A pass from a truthful cache returns the map of a pass with none, exactly when no file
    * it reused has become unreadable. */
  lemma {:induction false} CachedIsDirect(
    tree: Tree, rels: seq<Path>, budget: nat, sha: seq<byte> -> Digest, cache: Cache<Path>, window: i64)
    requires Distinct(rels) && Truthful(tree, cache, window, sha)
    ensures Digests(Entries(tree, rels, budget, sha, cache, window)) == Direct(tree, rels, budget, sha)
      <==> ReusedReadable(tree, rels, budget, cache, window)
  {
    if rels != [] {
      var init, p := rels[..|rels| - 1], rels[|rels| - 1];
      CachedIsDirect(tree, init, budget, sha, cache, window);
      EntriesWithin(tree, init, budget, sha, cache, window);
      ReadableSplits(tree, rels, budget, cache, window);
      LastAdds(tree, rels, budget, sha, cache, window);
      var x := Added(tree, rels, budget, sha, cache, window);
      var y := if Charged(tree, rels, budget) && tree(p).readable then Some(sha(tree(p).content)) else None;
      PutEqual(Digests(Entries(tree, init, budget, sha, cache, window)), Direct(tree, init, budget, sha), p, x, y);
    }
  }

  /** A file that opens but whose read then fails, on an input error say: the pass still answers
    * for it from the cache, hashing it directly does not. */
  lemma UnreadableIsReused(sha: seq<byte> -> Digest)
    ensures var key := StatKey(0, 1, 1, 0, 0, 0);
      var tree: Tree := p => if p == "f" then Regular(key, [], false) else Absent;
      var cache := Cache(RACY_WINDOW + 2, map["f" := Entry(key, sha([]))]);
      && Truthful(tree, cache, RACY_WINDOW, sha)
      && "f" in Digests(Entries(tree, ["f"], 0, sha, cache, RACY_WINDOW))
      && Direct(tree, ["f"], 0, sha) == map[]
  {
    var key := StatKey(0, 1, 1, 0, 0, 0);
    var tree: Tree := p => if p == "f" then Regular(key, [], false) else Absent;
    assert ["f"][..0] == [];
    assert Charged(tree, ["f"], 0);
  }

  /** A file that does not open, for want of permission say, is not answered for, whatever the
    * cache holds for it. */
  lemma UnopenedIsSkipped(
    tree: Tree, rels: seq<Path>, budget: nat, sha: seq<byte> -> Digest, cache: Cache<Path>, window: i64, p: Path)
    requires tree(p).Absent?
    ensures p !in Entries(tree, rels, budget, sha, cache, window) && p !in Direct(tree, rels, budget, sha)
  {
    EntriesWithin(tree, rels, budget, sha, cache, window);
  }

  lemma ReadableSplits(tree: Tree, rels: seq<Path>, budget: nat, cache: Cache<Path>, window: i64)
    requires rels != []
    ensures ReusedReadable(tree, rels, budget, cache, window) <==>
      && ReusedReadable(tree, rels[..|rels| - 1], budget, cache, window)
      && (Charged(tree, rels, budget) && Reused(tree, rels[|rels| - 1], cache, window) ==>
        tree(rels[|rels| - 1]).readable)
  {
    var init := rels[..|rels| - 1];
    assert forall k :: 0 < k <= |init| ==> init[..k] == rels[..k] && init[k - 1] == rels[k - 1];
    assert rels[..|rels|] == rels;
  }

  /** Two caches reuse the same of the charged files whose read would fail. */
  ghost predicate ReusedAlike(tree: Tree, rels: seq<Path>, budget: nat, a: Cache<Path>, b: Cache<Path>, window: i64) {
    forall k :: 0 < k <= |rels| && Charged(tree, rels[..k], budget) && !tree(rels[k - 1]).readable ==>
      (Reused(tree, rels[k - 1], a, window) <==> Reused(tree, rels[k - 1], b, window))
  }

  lemma AlikeSplits(tree: Tree, rels: seq<Path>, budget: nat, a: Cache<Path>, b: Cache<Path>, window: i64)
    requires rels != []
    ensures var p := rels[|rels| - 1];
      ReusedAlike(tree, rels, budget, a, b, window) <==>
        && ReusedAlike(tree, rels[..|rels| - 1], budget, a, b, window)
        && (Charged(tree, rels, budget) && !tree(p).readable ==>
          (Reused(tree, p, a, window) <==> Reused(tree, p, b, window)))
  {
    var init := rels[..|rels| - 1];
    assert forall k :: 0 < k <= |init| ==> init[..k] == rels[..k] && init[k - 1] == rels[k - 1];
    assert rels[..|rels|] == rels;
  }

  /** What a pass adds for its last path. */
  function Added(
    tree: Tree, rels: seq<Path>, budget: nat, sha: seq<byte> -> Digest, cache: Cache<Path>,
    window: i64): Option<Digest>
    requires rels != []
  {
    var p := rels[|rels| - 1];
    if !Charged(tree, rels, budget) then None
    else if Reused(tree, p, cache, window) then Some(cache.entries[p].digest)
    else if tree(p).readable then Some(sha(tree(p).content)) else None
  }

  /** Two truthful caches give one map, budgeted or not, exactly when they reuse the same of the
    * files whose read would fail; with no such file every two do. */
  lemma {:induction false} CachesAgree(
    tree: Tree, rels: seq<Path>, budget: nat, sha: seq<byte> -> Digest, a: Cache<Path>, b: Cache<Path>, window: i64)
    requires Distinct(rels) && Truthful(tree, a, window, sha) && Truthful(tree, b, window, sha)
    ensures Digests(Entries(tree, rels, budget, sha, a, window)) == Digests(Entries(tree, rels, budget, sha, b, window))
      <==> ReusedAlike(tree, rels, budget, a, b, window)
    decreases |rels|
  {
    if rels != [] {
      var init, p := rels[..|rels| - 1], rels[|rels| - 1];
      CachesAgree(tree, init, budget, sha, a, b, window);
      EntriesWithin(tree, init, budget, sha, a, window);
      EntriesWithin(tree, init, budget, sha, b, window);
      AlikeSplits(tree, rels, budget, a, b, window);
      LastAdds(tree, rels, budget, sha, a, window);
      LastAdds(tree, rels, budget, sha, b, window);
      AddedAlike(tree, rels, budget, sha, a, b, window);
      hide Entries, ReusedAlike, Charged, Added;
      PutEqual(Digests(Entries(tree, init, budget, sha, a, window)),
        Digests(Entries(tree, init, budget, sha, b, window)), p,
               Added(tree, rels, budget, sha, a, window), Added(tree, rels, budget, sha, b, window));
    }
  }

  /** A charged file is answered for exactly when it is reused or can be read. */
  lemma {:induction false} ChargedAnswered(
    tree: Tree, rels: seq<Path>, budget: nat, sha: seq<byte> -> Digest, cache: Cache<Path>, window: i64, k: nat)
    requires Distinct(rels) && 0 < k <= |rels| && Charged(tree, rels[..k], budget)
    ensures rels[k - 1] in Entries(tree, rels, budget, sha, cache, window) <==>
      Reused(tree, rels[k - 1], cache, window) || tree(rels[k - 1]).readable
    decreases |rels|
  {
    hide LeftAfter, Reused;
    var init := rels[..|rels| - 1];
    EntriesWithin(tree, init, budget, sha, cache, window);
    if k < |rels| {
      assert init[..k] == rels[..k] && init[k - 1] == rels[k - 1] != rels[|rels| - 1];
      ChargedAnswered(tree, init, budget, sha, cache, window, k);
    } else {
      assert rels[..k] == rels;
      assert rels[k - 1] !in init;
    }
  }

  lemma AddedAlike(
    tree: Tree, rels: seq<Path>, budget: nat, sha: seq<byte> -> Digest, a: Cache<Path>, b: Cache<Path>, window: i64)
    requires rels != [] && Truthful(tree, a, window, sha) && Truthful(tree, b, window, sha)
    ensures var p := rels[|rels| - 1];
      Added(tree, rels, budget, sha, a, window) == Added(tree, rels, budget, sha, b, window) <==>
        (Charged(tree, rels, budget) && !tree(p).readable ==>
          (Reused(tree, p, a, window) <==> Reused(tree, p, b, window)))
  {
    hide Charged;
  }

  // ---- the pass -------------------------------------------------------------------------------

  datatype Loaded = Missing | Invalid | Valid(cache: Cache<Path>)

  function LoadedCache(l: Loaded): Cache<Path> { if l.Valid? then l.cache else NoCache() }

  ghost predicate EligibleIn(tree: Tree, rels: seq<Path>, k: nat, p: Path)
    requires k <= |rels|
  {
    p in rels[..k] && Eligible(tree(p))
  }

  /** Over the files looked at so far the entries are what they were. */
  ghost predicate Unmoved(tree: Tree, rels: seq<Path>, k: nat, entries: map<Path, Entry>, before: map<Path, Entry>)
    requires k <= |rels|
  {
    forall p :: EligibleIn(tree, rels, k, p) ==> Lookup(entries, p) == Lookup(before, p)
  }

  function Lookup(m: map<Path, Entry>, p: Path): Option<Entry> {
    if p in m then Some(m[p]) else None
  }

  /** The old entries still to be looked at. */
  ghost predicate Remaining(tree: Tree, rels: seq<Path>, k: nat, rest: map<Path, Entry>, before: map<Path, Entry>)
    requires k <= |rels|
  {
    forall p :: Lookup(rest, p) == if EligibleIn(tree, rels, k, p) then None else Lookup(before, p)
  }

  lemma EligibleStep(tree: Tree, rels: seq<Path>, k: nat, p: Path)
    requires k < |rels|
    ensures EligibleIn(tree, rels, k + 1, p) <==> EligibleIn(tree, rels, k, p) || (p == rels[k] && Eligible(tree(p)))
  {
    assert rels[..k + 1] == rels[..k] + [rels[k]];
  }

  /** Looking at one more eligible file takes it off the old entries and compares it. */
  lemma MoveStep(
    tree: Tree, rels: seq<Path>, k: nat, rest: map<Path, Entry>, before: map<Path, Entry>, entries: map<Path, Entry>,
    entry: Option<Entry>)
    requires k < |rels| && Distinct(rels) && Eligible(tree(rels[k])) && rels[k] !in entries
    requires Remaining(tree, rels, k, rest, before)
    ensures Lookup(rest, rels[k]) == Lookup(before, rels[k])
    ensures Remaining(tree, rels, k + 1, rest - {rels[k]}, before)
    ensures var entries' := if entry.Some? then entries[rels[k] := entry.value] else entries;
      Unmoved(tree, rels, k + 1, entries', before) <==>
        Unmoved(tree, rels, k, entries, before) && Lookup(before, rels[k]) == entry
  {
    assert !EligibleIn(tree, rels, k, rels[k]);
    forall p ensures EligibleIn(tree, rels, k + 1, p) <==> EligibleIn(tree, rels, k, p) || p == rels[k] {
      EligibleStep(tree, rels, k, p);
    }
    assert EligibleIn(tree, rels, k + 1, rels[k]);
    forall p
      ensures Lookup(rest - {rels[k]}, p) == if EligibleIn(tree, rels, k + 1, p) then None else Lookup(before, p)
    {
      assert Lookup(rest, p) == if EligibleIn(tree, rels, k, p) then None else Lookup(before, p);
    }
    var entries' := if entry.Some? then entries[rels[k] := entry.value] else entries;
    assert Lookup(entries', rels[k]) == entry;
  }

  lemma MoveSkip(
    tree: Tree, rels: seq<Path>, k: nat, rest: map<Path, Entry>, before: map<Path, Entry>, entries: map<Path, Entry>)
    requires k < |rels| && !Eligible(tree(rels[k])) && Remaining(tree, rels, k, rest, before)
    ensures Remaining(tree, rels, k + 1, rest, before)
    ensures Unmoved(tree, rels, k + 1, entries, before) <==> Unmoved(tree, rels, k, entries, before)
  {
    forall p ensures EligibleIn(tree, rels, k + 1, p) <==> EligibleIn(tree, rels, k, p) {
      EligibleStep(tree, rels, k, p);
    }
  }

  /** Nothing moved and nothing is left over exactly when the entries are the old ones. */
  lemma MoveEnd(
    tree: Tree, rels: seq<Path>, rest: map<Path, Entry>, before: map<Path, Entry>, entries: map<Path, Entry>)
    requires Remaining(tree, rels, |rels|, rest, before)
    requires forall p :: p in entries ==> EligibleIn(tree, rels, |rels|, p)
    ensures entries == before <==> rest == map[] && Unmoved(tree, rels, |rels|, entries, before)
  {
    if entries == before {
      assert forall p :: p in rest ==> Lookup(rest, p).Some?;
    }
    if rest == map[] && Unmoved(tree, rels, |rels|, entries, before) {
      forall p ensures Lookup(entries, p) == Lookup(before, p) {
        assert Lookup(rest, p) == None;
      }
      assert forall p :: p in entries <==> Lookup(entries, p).Some?;
      assert forall p :: p in before <==> Lookup(before, p).Some?;
      assert entries == before;
    }
  }

  function CountEligible(tree: Tree, rels: seq<Path>): nat {
    if rels == [] then 0
    else CountEligible(tree, rels[..|rels| - 1]) + if Eligible(tree(rels[|rels| - 1])) then 1 else 0
  }

  /** A charged file has a cached entry under its own key that is too young to be trusted. */
  predicate RacyAt(tree: Tree, rels: seq<Path>, budget: nat, cache: Cache<Path>, window: i64, k: nat)
    requires 0 < k <= |rels|
  {
    var p := rels[k - 1];
    && Charged(tree, rels[..k], budget)
    && p in cache.entries && cache.entries[p].key == tree(p).key && !Reused(tree, p, cache, window)
  }

  /** One file of the pass, after it was opened within the cap and taken off the old entries. */
  method HashOne(
    node: Node, prev: Option<Entry>, trustedBefore: i64, left: nat, sha: seq<byte> -> Digest, pass: Counters)
    returns (pass': Counters, left': nat, entry: Option<Entry>)
    requires Eligible(node)
    ensures node.key.size > left ==>
      left' == left && entry.None? && pass' == pass.(overBudget := pass.overBudget + 1)
    ensures node.key.size <= left ==>
      var hit := prev.Some? && prev.value.key == node.key;
      && left' == left - node.key.size
      && pass'.overBudget == pass.overBudget
      && pass'.hashed + pass'.reused == pass.hashed + pass.reused + 1
      && pass'.bytesHashed + pass'.bytesReused == pass.bytesHashed + pass.bytesReused + node.key.size
      && (hit && node.key.Newest() < trustedBefore ==>
            entry == Some(prev.value) && pass'.racy == pass.racy && pass'.hashed == pass.hashed)
      && (!(hit && node.key.Newest() < trustedBefore) ==>
            && entry == (if node.readable then Some(Entry(node.key, sha(node.content))) else None)
            && pass'.racy == pass.racy + (if hit then 1 else 0)
            && pass'.reused == pass.reused)
  {
    var size := node.key.size;
    if size > left {
      return pass.(overBudget := pass.overBudget + 1), left, None;
    }
    left' := left - size;
    var hit := prev.Some? && prev.value.key == node.key;
    if hit && node.key.Newest() < trustedBefore {
      pass' := pass.(reused := pass.reused + 1, bytesReused := pass.bytesReused + size);
      entry := Some(Entry(node.key, prev.value.digest));
    } else {
      pass' := pass.(racy := pass.racy + if hit then 1 else 0,
                     hashed := pass.hashed + 1, bytesHashed := pass.bytesHashed + size);
      entry := if node.readable then Some(Entry(node.key, sha(node.content))) else None;
    }
  }

  lemma PrefixStep(rels: seq<Path>, k: nat)
    requires k < |rels|
    ensures rels[..k + 1][..k] == rels[..k] && rels[..k + 1][k] == rels[k]
  {
  }

  /** What the pass has charged, kept and counted after `rels`. */
  ghost predicate Tallied(
    tree: Tree, rels: seq<Path>, limit: nat, sha: seq<byte> -> Digest, cache: Cache<Path>, window: i64, left: nat,
    entries: map<Path, Entry>, pass: Counters)
  {
    && left == LeftAfter(tree, rels, limit)
    && entries == Entries(tree, rels, limit, sha, cache, window)
    && pass.hashed + pass.reused + pass.overBudget == CountEligible(tree, rels)
    && pass.bytesHashed + pass.bytesReused == limit - left
  }

  ghost predicate RacyCounted(
    tree: Tree, rels: seq<Path>, limit: nat, cache: Cache<Path>, window: i64, k: nat, racy: nat)
    requires k <= |rels|
  {
    racy > 0 <==> exists j :: 0 < j <= k && RacyAt(tree, rels, limit, cache, window, j)
  }

  lemma RacyStep(
    tree: Tree, rels: seq<Path>, limit: nat, cache: Cache<Path>, window: i64, k: nat, racy: nat, racy': nat)
    requires k < |rels| && RacyCounted(tree, rels, limit, cache, window, k, racy)
    requires racy' == racy + if RacyAt(tree, rels, limit, cache, window, k + 1) then 1 else 0
    ensures RacyCounted(tree, rels, limit, cache, window, k + 1, racy')
  {
  }

  lemma EntriesEligible(
    tree: Tree, rels: seq<Path>, limit: nat, sha: seq<byte> -> Digest, cache: Cache<Path>, window: i64)
    ensures forall p :: p in Entries(tree, rels, limit, sha, cache, window) ==> EligibleIn(tree, rels, |rels|, p)
  {
    assert rels[..|rels|] == rels;
    if rels != [] {
      EntriesEligible(tree, rels[..|rels| - 1], limit, sha, cache, window);
    }
  }

  /** One path of the pass. */
  method HashPath(
    tree: Tree, ghost rels: seq<Path>, ghost k: nat, ghost limit: nat, p: Path, prev: Option<Entry>,
    trustedBefore: i64, left: nat, entries: map<Path, Entry>, sha: seq<byte> -> Digest, pass: Counters,
    ghost cache: Cache<Path>, ghost window: i64)
    returns (pass': Counters, left': nat, entries': map<Path, Entry>, entry: Option<Entry>)
    requires k < |rels| && p == rels[k] && Distinct(rels) && Eligible(tree(p)) && prev == Lookup(cache.entries, p)
    requires trustedBefore == SatSub(cache.recorded, window)
    requires Tallied(tree, rels[..k], limit, sha, cache, window, left, entries, pass)
    ensures Tallied(tree, rels[..k + 1], limit, sha, cache, window, left', entries', pass')
    ensures pass'.racy == pass.racy + if RacyAt(tree, rels, limit, cache, window, k + 1) then 1 else 0
    ensures entries' == if entry.Some? then entries[p := entry.value] else entries
  {
    PrefixStep(rels, k);
    pass', left', entry := HashOne(tree(p), prev, trustedBefore, left, sha, pass);
    entries' := if entry.Some? then entries[p := entry.value] else entries;
  }

  /** Where the pass stands after its first `k` paths: what it charged, kept and counted, which old
    * entries it has not come to, and whether an entry it has come to changed. */
  ghost predicate Passing(
    tree: Tree, rels: seq<Path>, k: nat, limit: nat, sha: seq<byte> -> Digest, cache: Cache<Path>, window: i64,
    left: nat, entries: map<Path, Entry>, pass: Counters, rest: map<Path, Entry>, changed: bool)
  {
    && k <= |rels|
    && Tallied(tree, rels[..k], limit, sha, cache, window, left, entries, pass)
    && RacyCounted(tree, rels, limit, cache, window, k, pass.racy)
    && Remaining(tree, rels, k, rest, cache.entries)
    && (!changed <==> Unmoved(tree, rels, k, entries, cache.entries))
  }

  lemma PassBegins(tree: Tree, rels: seq<Path>, limit: nat, sha: seq<byte> -> Digest, cache: Cache<Path>, window: i64)
    ensures Passing(tree, rels, 0, limit, sha, cache, window, limit, map[], Counters(0, 0, 0, 0, 0, 0), cache.entries,
      false)
  {
    assert rels[..0] == [];
  }

  /** An old entry the pass has not come to is still the cache's. */
  lemma NotYet(tree: Tree, rels: seq<Path>, k: nat, rest: map<Path, Entry>, before: map<Path, Entry>)
    requires k < |rels| && Distinct(rels) && Remaining(tree, rels, k, rest, before)
    ensures rels[k] !in rels[..k] && Lookup(rest, rels[k]) == Lookup(before, rels[k])
  {
    assert !EligibleIn(tree, rels, k, rels[k]);
  }

  /** One path: skipped, or taken off the old entries, charged, and compared. */
  method PassPath(
    tree: Tree, rels: seq<Path>, k: nat, ghost limit: nat, sha: seq<byte> -> Digest, ghost cache: Cache<Path>,
    ghost window: i64, trustedBefore: i64, left: nat, entries: map<Path, Entry>, pass: Counters, rest: map<Path, Entry>,
    changed: bool)
    returns (left': nat, entries': map<Path, Entry>, pass': Counters, rest': map<Path, Entry>, changed': bool)
    requires k < |rels| && Distinct(rels) && trustedBefore == SatSub(cache.recorded, window)
    requires Passing(tree, rels, k, limit, sha, cache, window, left, entries, pass, rest, changed)
    ensures Passing(tree, rels, k + 1, limit, sha, cache, window, left', entries', pass', rest', changed')
  {
    hide Entries, LeftAfter, CountEligible, Charged, Unmoved, Remaining, RacyCounted, RacyAt, Reused, EligibleIn;
    var p := rels[k];
    left', entries', pass', rest', changed' := left, entries, pass, rest, changed;
    if !Eligible(tree(p)) {
      MoveSkip(tree, rels, k, rest, cache.entries, entries);
      SkipTallied(tree, rels, k, limit, sha, cache, window, left, entries, pass);
    } else {
      EntriesWithin(tree, rels[..k], limit, sha, cache, window);
      NotYet(tree, rels, k, rest, cache.entries);
      var prev := if p in rest then Some(rest[p]) else None;
      rest' := rest - {p};
      var entry;
      pass', left', entries', entry :=
        HashPath(tree, rels, k, limit, p, prev, trustedBefore, left, entries, sha, pass, cache, window);
      changed' := changed || prev != entry;
      MoveStep(tree, rels, k, rest, cache.entries, entries, entry);
    }
    RacyStep(tree, rels, limit, cache, window, k, pass.racy, pass'.racy);
  }

  lemma SkipTallied(
    tree: Tree, rels: seq<Path>, k: nat, limit: nat, sha: seq<byte> -> Digest, cache: Cache<Path>, window: i64,
    left: nat, entries: map<Path, Entry>, pass: Counters)
    requires k < |rels| && !Eligible(tree(rels[k])) &&
      Tallied(tree, rels[..k], limit, sha, cache, window, left, entries, pass)
    ensures Tallied(tree, rels[..k + 1], limit, sha, cache, window, left, entries, pass)
    ensures !RacyAt(tree, rels, limit, cache, window, k + 1)
  {
    PrefixStep(rels, k);
  }

  /** What a finished pass has: its results, and that the comparison was of the whole maps. */
  lemma PassEnds(
    tree: Tree, rels: seq<Path>, limit: nat, sha: seq<byte> -> Digest, cache: Cache<Path>, window: i64,
    left: nat, entries: map<Path, Entry>, pass: Counters, rest: map<Path, Entry>, changed: bool)
    requires Passing(tree, rels, |rels|, limit, sha, cache, window, left, entries, pass, rest, changed)
    ensures entries == Entries(tree, rels, limit, sha, cache, window)
    ensures pass.hashed + pass.reused + pass.overBudget == CountEligible(tree, rels)
    ensures pass.bytesHashed + pass.bytesReused == limit - LeftAfter(tree, rels, limit)
    ensures RacyCounted(tree, rels, limit, cache, window, |rels|, pass.racy)
    ensures entries != cache.entries <==> changed || rest != map[]
  {
    hide Entries, LeftAfter, CountEligible, RacyCounted, Unmoved, Remaining;
    assert rels[..|rels|] == rels;
    EntriesEligible(tree, rels, limit, sha, cache, window);
    MoveEnd(tree, rels, rest, cache.entries, entries);
  }

  /** The pass: the entries and map a cache gives, what was charged, and whether the cache
    * file is rewritten, which is exactly when its content would differ, an entry was racy or
    * the file was not valid. */
  method HashFiles(
    tree: Tree, given: seq<Path>, loaded: Loaded, hasCacheFile: bool, window: i64, budget: Option<u64>,
    sha: seq<byte> -> Digest)
    returns (digests: map<Path, Digest>, entries: map<Path, Entry>, pass: Counters, write: bool)
    requires loaded.Valid? || loaded.Invalid? ==> hasCacheFile
    ensures var limit := if budget.Some? then budget.value else U64_MAX;
      var rels, cache := Unique(given), LoadedCache(loaded);
      && entries == Entries(tree, rels, limit, sha, cache, window)
      && digests == Digests(entries)
      && pass.hashed + pass.reused + pass.overBudget == CountEligible(tree, rels)
      && pass.bytesHashed + pass.bytesReused == limit - LeftAfter(tree, rels, limit)
      && RacyCounted(tree, rels, limit, cache, window, |rels|, pass.racy)
      && (write <==> hasCacheFile && (loaded.Invalid? || pass.racy > 0 || entries != cache.entries))
  {
    hide Passing, Entries, LeftAfter, CountEligible, RacyCounted, Digests;
    var limit: nat := if budget.Some? then budget.value else U64_MAX;
    var rels, cache := Unique(given), LoadedCache(loaded);
    var trustedBefore := SatSub(cache.recorded, window);
    var left := limit;
    pass := Counters(0, 0, 0, 0, 0, 0);
    entries := map[];
    var rest := cache.entries;
    var changed := false;
    PassBegins(tree, rels, limit, sha, cache, window);
    for k := 0 to |rels|
      invariant Passing(tree, rels, k, limit, sha, cache, window, left, entries, pass, rest, changed)
    {
      left, entries, pass, rest, changed :=
        PassPath(tree, rels, k, limit, sha, cache, window, trustedBefore, left, entries, pass, rest, changed);
    }
    PassEnds(tree, rels, limit, sha, cache, window, left, entries, pass, rest, changed);
    digests := Digests(entries);
    write := hasCacheFile && (loaded.Invalid? || changed || rest != map[] || pass.racy > 0);
  }

  // ---- any cache a run can leave ----------------------------------------------------------------

  /** The tree a moment of a run shows; reading some of its files may fail. */
  function TreeOf(files: map<Path, RacyCache.File>, readable: Path -> bool): Tree {
    p => if p in files then Regular(files[p].key, files[p].content, readable(p)) else Absent
  }

  /** In every run whose window is wide enough the cache that stands is truthful, so a pass over
    * the files as they stand, budgeted or not, returns what hashing every file returns exactly
    * when no file it reuses has become unreadable. */
  lemma AnyCacheAgrees(
    c: RacyCache.Params, s: RacyCache.System, run: seq<RacyCache.Event>, rels: seq<Path>, budget: nat,
    readable: Path -> bool)
    requires RacyCache.WideEnough(c) && RacyCache.Initial(s) && RacyCache.Legal(c, s, run) && Distinct(rels)
    ensures var now := RacyCache.After(c, s, run);
      now.stored.Some? ==>
        var tree := TreeOf(now.files, readable);
        && Truthful(tree, now.stored.value, c.window, c.sha)
        && var got := Digests(Entries(tree, rels, budget, c.sha, now.stored.value, c.window));
           got == Direct(tree, rels, budget, c.sha) <==> ReusedReadable(tree, rels, budget, now.stored.value, c.window)
  {
    RacyCache.RunKeeps(c, s, run);
    var now := RacyCache.After(c, s, run);
    if now.stored.Some? {
      var tree, cache := TreeOf(now.files, readable), now.stored.value;
      forall p | Reused(tree, p, cache, c.window)
        ensures cache.entries[p].digest == c.sha(tree(p).content)
      {
        RacyCache.VouchedIsSound(c, now.now, now.files, cache, p);
      }
      CachedIsDirect(tree, rels, budget, c.sha, cache, c.window);
    }
  }

  /** With every file readable it always does. */
  lemma ReadableTreesAgree(
    c: RacyCache.Params, s: RacyCache.System, run: seq<RacyCache.Event>, rels: seq<Path>, budget: nat)
    requires RacyCache.WideEnough(c) && RacyCache.Initial(s) && RacyCache.Legal(c, s, run) && Distinct(rels)
    ensures var now := RacyCache.After(c, s, run);
      now.stored.Some? ==>
        var tree := TreeOf(now.files, _ => true);
        Digests(Entries(tree, rels, budget, c.sha, now.stored.value, c.window)) == Direct(tree, rels, budget, c.sha)
  {
    hide RacyCache.After, Entries, Direct;
    AnyCacheAgrees(c, s, run, rels, budget, _ => true);
  }
}
