/** Why an observation of the worktree is exact about the tracked files. */
module TrackedTree {
  import opened Base
  import Utf8
  import opened StatusList
  import opened Identity
  import opened TreeKey
  import opened Drift

  // `Repo` is the repository itself: HEAD, the index and what stands at each path. `Means`
  // says what a status listing says of it, and the identity's classification what each
  // listed path holds. That the two together are exact about the full map is then derived.

  /** `vouched` are the files whose read fails but for which the full pass's stat cache still
    * answers. */
  datatype Repo = Repo(
    head: map<Path, HeadFile>,
    objects: Objects,
    index: set<Path>,
    disk: Path -> OnDisk,
    vouched: Path -> bool)

  /** A file the full pass hashes, were it tracked: regular, within the cap, and readable or
    * vouched for. */
  predicate Hashable(r: Repo, p: Path) {
    var n := r.disk(p);
    n.File? && |n.bytes| <= MAX_REPO_FILE_BYTES && (n.readable || r.vouched(p))
  }

  /** The full map: the tracked files that can be hashed, with their hashes. */
  ghost predicate IsFull(r: Repo, hex: Path -> Hex, full: Hashes) {
    forall p :: Lookup(full, p) == if p in r.index && Hashable(r, p) then Some(hex(r.disk(p).bytes)) else None
  }

  predicate ListedIn(status: seq<StatusEntry>, p: Path) {
    exists k :: 0 <= k < |status| && !Untracked(status[k]) && status[k].path == p
  }

  /** Some listed entry was renamed from `p`, in the index or in the worktree. */
  predicate MovedFrom(status: seq<StatusEntry>, p: Path) {
    exists k :: 0 <= k < |status| && !Untracked(status[k]) && status[k].orig == Some(p) &&
      (status[k].x == 'R' as int || status[k].y == 'R' as int)
  }

  /** What Git's status codes say of the index: an entry is in it, but for one whose first
    * letter is D and whose second is blank. */
  ghost predicate CodesMean(r: Repo, status: seq<StatusEntry>) {
    forall k :: 0 <= k < |status| && !Untracked(status[k]) ==>
      (status[k].path in r.index <==> !(status[k].x == 'D' as int && status[k].y == ' ' as int))
  }

  /** A rename in the index takes its source out of it; one in the worktree leaves no file. */
  ghost predicate RenamesMean(r: Repo, status: seq<StatusEntry>) {
    forall p :: MovedFrom(status, p) && !ListedIn(status, p) ==> p !in r.index || !r.disk(p).File?
  }

  /** A path that is not named is as HEAD has it: tracked with HEAD's bytes in the worktree,
    * something other than a regular file in both, or in neither. */
  ghost predicate CleanAs(r: Repo, p: Path) {
    if p !in r.head then p !in r.index
    else if !IsRegular(r.head[p].mode) then !r.disk(p).File?
    else p in r.index && exists b :: r.objects(r.head[p].oid) == Some(b) && r.disk(p) == File(b, true)
  }

  ghost predicate Means(r: Repo, status: seq<StatusEntry>) {
    && CodesMean(r, status)
    && RenamesMean(r, status)
    && forall p :: !ListedIn(status, p) && !MovedFrom(status, p) ==> CleanAs(r, p)
  }

  // ---- what the observation says of a path ----------------------------------------------

  /** The identity's world shows the disk at `p`, and its own pass answers only for files the
    * full pass would. */
  ghost predicate Faithful(w: World, r: Repo, p: Path) {
    Shows(w, p, r.disk(p)) && (w.hashed(p).Some? ==> Hashable(r, p))
  }

  /** Whatever an observed content says of a tracked path is so. */
  lemma SaidIsTrue(w: World, r: Repo, e: StatusEntry, budget: nat)
    requires Faithful(w, r, e.path)
    ensures var said := ComparableHash(ContentAt(w, e, budget));
      said.Some? ==> said.value == if Hashable(r, e.path) then Some(w.hex(r.disk(e.path).bytes)) else None
  {
  }

  /** And it says nothing exactly where the file is one that the observation did not get to
    * read: no budget for it, or a read that fails. */
  lemma SilentExactly(w: World, r: Repo, e: StatusEntry, budget: nat)
    requires Faithful(w, r, e.path)
    ensures var n := r.disk(e.path);
      ComparableHash(ContentAt(w, e, budget)).None? <==>
        && w.hashed(e.path).None?
        && match n
           case Repository(_) => false
           case Folder => false
           case DeadFolder => true
           case Locked => true
           case Gone => budget == 0
           case Device => budget == 0
           case Link(target) => budget == 0 || target.None?
           case File(bytes, readable) =>
             budget == 0 || !readable || budget < |bytes| <= MAX_REPO_FILE_BYTES
  {
  }

  // ---- the state drift reads --------------------------------------------------------------

  /** The contents by path, as the fold inserts them: a later entry of the same path wins. */
  function DirtyMap(es: seq<StatusEntry>, contents: seq<Content>): map<Path, Content>
    requires |es| == |contents|
  {
    if es == [] then map[]
    else DirtyMap(es[..|es| - 1], contents[..|es| - 1])[es[|es| - 1].path := contents[|es| - 1]]
  }

  lemma {:induction false} DirtyIsSome(es: seq<StatusEntry>, contents: seq<Content>, p: Path) returns (k: nat)
    requires |es| == |contents| && p in DirtyMap(es, contents)
    ensures k < |es| && es[k].path == p && DirtyMap(es, contents)[p] == contents[k]
    decreases |es|
  {
    k := |es| - 1;
    if es[k].path != p {
      k := DirtyIsSome(es[..k], contents[..k], p);
    }
  }

  /** Every entry that was folded is in the map. */
  lemma {:induction false} DirtyHasAll(es: seq<StatusEntry>, contents: seq<Content>, k: nat)
    requires |es| == |contents| && k < |es|
    ensures es[k].path in DirtyMap(es, contents)
    decreases |es|
  {
    if k < |es| - 1 {
      DirtyHasAll(es[..|es| - 1], contents[..|es| - 1], k);
    }
  }

  /** One observation, as the drift check reads it. */
  function StateOf(s: Seen, prefix: Option<seq<byte>>): Drift.State {
    Drift.State(prefix, s.entries, DirtyMap(s.entries, ContentsOf(s)))
  }

  /** What the observation says of a listed entry is what the full map holds there. */
  lemma EntrySaysFull(s: Seen, prefix: Option<seq<byte>>, r: Repo, full: Hashes, k: nat)
    requires CodesMean(r, s.entries) && IsFull(r, s.w.hex, full)
    requires forall p :: ListedIn(s.entries, p) ==> Faithful(s.w, r, p)
    requires k < |s.entries| && !Untracked(s.entries[k])
    ensures var said := EntryHash(StateOf(s, prefix), s.entries[k]);
      said.Some? ==> said.value == Lookup(full, s.entries[k].path)
  {
    hide ComparableHash, ContentAt, Contents, DirtyMap, Hashable, Faithful;
    var state, e := StateOf(s, prefix), s.entries[k];
    assert ListedIn(s.entries, e.path);
    if e.path in r.index && e.path in state.dirty {
      var j := DirtyIsSome(s.entries, ContentsOf(s), e.path);
      ContentsAt(s.w, s.entries, s.budget, j);
      SaidIsTrue(s.w, r, s.entries[j], BudgetAfter(s.w, s.entries[..j], s.budget));
    }
  }

  ghost predicate SilentAt(s: Seen, j: nat, p: Path)
    requires j < |s.entries|
  {
    s.entries[j].path == p && ComparableHash(ContentsOf(s)[j]).None?
  }

  /** The check gives up on an entry only where some observed content of its path is silent. */
  lemma SilentEntry(s: Seen, prefix: Option<seq<byte>>, k: nat)
    requires k < |s.entries| && EntryHash(StateOf(s, prefix), s.entries[k]).None?
    ensures exists j :: 0 <= j < |s.entries| && SilentAt(s, j, s.entries[k].path)
  {
    hide ComparableHash, Contents, DirtyMap;
    DirtyHasAll(s.entries, ContentsOf(s), k);
    var j := DirtyIsSome(s.entries, ContentsOf(s), s.entries[k].path);
    assert SilentAt(s, j, s.entries[k].path);
  }

  /** At the worktree's top, with a baseline that says what it took in and UTF-8 paths, the
    * listing decides whenever no observed content is silent. */
  lemma DecidedWhenHeard(b: Baseline, s: Seen)
    requires b.takenIn.Some? || !b.dirty
    requires forall k :: 0 <= k < |s.entries| ==>
      Utf8.Valid(s.entries[k].path) && (s.entries[k].orig.Some? ==> Utf8.Valid(s.entries[k].orig.value))
    requires forall k :: 0 <= k < |s.entries| ==> ComparableHash(ContentsOf(s)[k]).Some?
    ensures Decision(b, StateOf(s, Some([]))).Some?
  {
    hide ComparableHash, Contents, DirtyMap, EntryHash, Current, Utf8.Valid;
    var state := StateOf(s, Some([]));
    forall k | 0 <= k < |s.entries|
      ensures EntryHash(state, s.entries[k]).Some?
    {
      if EntryHash(state, s.entries[k]).None? { SilentEntry(s, Some([]), k); }
    }
  }

  lemma SameNaming(s: Seen, prefix: Option<seq<byte>>, p: Path)
    ensures Lists(StateOf(s, prefix), p) <==> ListedIn(s.entries, p)
    ensures RenamedAway(StateOf(s, prefix), p) <==> MovedFrom(s.entries, p)
  {
    hide DirtyMap, Contents;
    assert forall e: StatusEntry :: e.orig == Some(p) ==>
      (Renamed(e) <==> e.x == 'R' as int || e.y == 'R' as int);
  }

  lemma CleanIsCommitted(r: Repo, hex: Path -> Hex, full: Hashes, p: Path)
    requires IsFull(r, hex, full) && CleanAs(r, p)
    ensures Lookup(full, p) == Lookup(HeadHashes(r.head, r.objects, hex), p)
  {
  }

  /** The observation is exact: every status code, every content under every budget. */
  lemma ObservationIsExact(s: Seen, prefix: Option<seq<byte>>, r: Repo, full: Hashes)
    requires Means(r, s.entries) && IsFull(r, s.w.hex, full)
    requires forall p :: ListedIn(s.entries, p) ==> Faithful(s.w, r, p)
    ensures ExactStatus(StateOf(s, prefix), HeadHashes(r.head, r.objects, s.w.hex), full)
  {
    hide EntryHash, Lists, RenamedAway, ListedIn, MovedFrom, HeadHashes, CleanAs, Contents, DirtyMap, Faithful;
    var state := StateOf(s, prefix);
    forall k | 0 <= k < |state.status| && !Untracked(state.status[k])
      ensures EntryHash(state, state.status[k]).Some? ==>
        EntryHash(state, state.status[k]).value == Lookup(full, state.status[k].path)
    {
      EntrySaysFull(s, prefix, r, full, k);
    }
    forall p
      ensures RenamedAway(state, p) && !Lists(state, p) ==> p !in full
      ensures !Lists(state, p) && !RenamedAway(state, p) ==>
        Lookup(full, p) == Lookup(HeadHashes(r.head, r.objects, s.w.hex), p)
    {
      SameNaming(s, prefix, p);
      assert p !in full <==> Lookup(full, p).None?;
      if CleanAs(r, p) { CleanIsCommitted(r, s.w.hex, full, p); }
    }
  }

  /** Drift is right about the repository: "unchanged" means that the tracked files hash to the
    * baseline, and "changed" that they do not or that a path taken in is HEAD's again. */
  lemma DriftIsRight(b: Baseline, s: Seen, prefix: Option<seq<byte>>, r: Repo, full: Hashes)
    requires Means(r, s.entries) && IsFull(r, s.w.hex, full)
    requires forall p :: ListedIn(s.entries, p) ==> Faithful(s.w, r, p)
    requires BuiltOn(b.(takenIn := TakenIn(b)), HeadHashes(r.head, r.objects, s.w.hex))
    ensures var decided := Decision(b, StateOf(s, prefix));
      && (decided == Some(false) ==> full == b.hashes)
      && (decided == Some(true) ==>
            full != b.hashes ||
            exists p :: p in TakenIn(b).value && !ListedIn(s.entries, p) && !MovedFrom(s.entries, p))
  {
    hide ExactStatus, Means, HeadHashes, IsFull, BuiltOn, StateOf, ListedIn, MovedFrom;
    var state, committed := StateOf(s, prefix), HeadHashes(r.head, r.objects, s.w.hex);
    ObservationIsExact(s, prefix, r, full);
    if Decidable(b, state) {
      ListedRefinesFull(b, state, committed, full);
      if Reverted(b, Current(state, |state.status|)) {
        var k :| 0 <= k < |TakenIn(b).value| && TakenIn(b).value[k] !in Current(state, |state.status|);
        var p := TakenIn(b).value[k];
        CurrentHolds(state, |state.status|, committed, full, p);
        SameNaming(s, prefix, p);
        assert ListsBefore(state, |state.status|, p) <==> Lists(state, p);
        assert RenamedBefore(state, |state.status|, p) <==> RenamedAway(state, p);
      }
    }
  }
}
