/** Index baselines, and when comparing only listed paths may stand in for comparing all. */
module Drift {
  import opened Base
  import Utf8
  import opened StatusList
  import opened Identity
  import CatFile

  const BLOB_BATCH_BYTES: nat := MAX_REPO_FILE_BYTES

  type Path = seq<byte>

  /** A file's SHA-256, in hexadecimal digits. */
  type Hex = seq<byte>
  type Hashes = map<Path, Hex>

  function Lookup(m: Hashes, p: Path): Option<Hex> {
    if p in m then Some(m[p]) else None
  }

  function Without(m: Hashes, p: Path): Hashes { map q | q in m && q != p :: m[q] }

  lemma SameHashes(a: Hashes, b: Hashes)
    ensures a == b <==> forall p :: Lookup(a, p) == Lookup(b, p)
  {
    if forall p :: Lookup(a, p) == Lookup(b, p) {
      assert forall p :: (p in a <==> Lookup(a, p).Some?) && (p in b <==> Lookup(b, p).Some?);
      assert a.Keys == b.Keys;
      assert forall p :: p in a ==> a[p] == Lookup(a, p).value && b[p] == Lookup(b, p).value;
      assert a == b;
    }
  }

  // ---- baselines ----------------------------------------------------------------------------

  /** A file of the HEAD commit: its mode and its blob's object id. */
  datatype HeadFile = HeadFile(mode: nat, oid: CatFile.Oid)

  /** A tracked path whose index or worktree differs from HEAD, and HEAD's entry for it (mode
    * zero when HEAD has none). */
  datatype HeadEntry = HeadEntry(path: Path, mode: nat, oid: CatFile.Oid)

  /** A regular file's modes, 100644 and 100755 in octal. */
  predicate IsRegular(mode: nat) { mode == 0x81A4 || mode == 0x81ED }

  /** The object store: the bytes of a blob, None for an object that is missing or not one. */
  type Objects = CatFile.Oid -> Option<CatFile.Content>

  datatype Reason = Registration | FirstGround | HeadChanged | Admin

  datatype Baseline = Baseline(hashes: Hashes, dirty: bool, takenIn: Option<seq<Path>>, fromHead: nat)

  /** A HEAD file that hashing would include: regular and within the cap. */
  ghost predicate Counted(f: HeadFile, objects: Objects) {
    IsRegular(f.mode) && objects(f.oid).Some? && |objects(f.oid).value| <= MAX_REPO_FILE_BYTES
  }

  /** The committed state: HEAD's regular files within the size cap, hashed. */
  ghost function HeadHashes(head: map<Path, HeadFile>, objects: Objects, sha: seq<byte> -> Hex): Hashes {
    map p | p in head && Counted(head[p], objects) :: sha(objects(head[p].oid).value)
  }

  /** The listing of uncommitted paths is exact: it gives HEAD's entry for each, and a tracked
    * path it does not list holds HEAD's bytes in the worktree. */
  ghost predicate ExactChanges(
    head: map<Path, HeadFile>, objects: Objects, sha: seq<byte> -> Hex, tracked: Hashes, changes: seq<HeadEntry>)
  {
    && (forall k :: 0 <= k < |changes| ==>
          var e := changes[k];
          if e.path in head then HeadFile(e.mode, e.oid) == head[e.path] else e.mode == 0)
    && (forall p :: (forall k :: 0 <= k < |changes| ==> changes[k].path != p) ==>
          Lookup(tracked, p) == Lookup(HeadHashes(head, objects, sha), p))
  }

  /** Every baseline's promise: outside what it took in, it holds the committed state. */
  ghost predicate BuiltOn(b: Baseline, committed: Hashes) {
    forall p :: (b.takenIn.Some? && p in b.takenIn.value) || Lookup(b.hashes, p) == Lookup(committed, p)
  }

  function Size(objects: Objects, e: HeadEntry): nat {
    if objects(e.oid).Some? then |objects(e.oid).value| else 0
  }

  function TotalSize(objects: Objects, es: seq<HeadEntry>): nat {
    if es == [] then 0 else TotalSize(objects, es[..|es| - 1]) + Size(objects, es[|es| - 1])
  }

  /** The entries whose blob is read, in order. */
  function Wanted(objects: Objects, es: seq<HeadEntry>): (r: seq<HeadEntry>)
    ensures forall k :: 0 <= k < |r| ==> r[k] in es && Size(objects, r[k]) <= MAX_REPO_FILE_BYTES
  {
    if es == [] then []
    else
      var init, e := Wanted(objects, es[..|es| - 1]), es[|es| - 1];
      if Size(objects, e) <= MAX_REPO_FILE_BYTES then init + [e] else init
  }

  function Flatten(batches: seq<seq<HeadEntry>>): seq<HeadEntry> {
    if batches == [] then [] else Flatten(batches[..|batches| - 1]) + batches[|batches| - 1]
  }

  predicate WithinBound(objects: Objects, batch: seq<HeadEntry>) {
    batch != [] && TotalSize(objects, batch) <= BLOB_BATCH_BYTES
  }

  /** The batch before could not have taken the first blob of this one. */
  predicate Overflows(objects: Objects, before: seq<HeadEntry>, batch: seq<HeadEntry>) {
    batch != [] && TotalSize(objects, before) + Size(objects, batch[0]) > BLOB_BATCH_BYTES
  }

  /** The batches cover the wanted blobs once each, in order; every batch is within the byte
    * bound and none could have taken the blob after it. */
  ghost predicate Batched(objects: Objects, wanted: seq<HeadEntry>, batches: seq<seq<HeadEntry>>) {
    && Flatten(batches) == wanted
    && (forall k :: 0 <= k < |batches| ==> WithinBound(objects, batches[k]))
    && (forall k :: 0 < k < |batches| ==> Overflows(objects, batches[k - 1], batches[k]))
  }

  /** The end of the batch that starts at `start`. */
  method NextBatch(objects: Objects, wanted: seq<HeadEntry>, start: nat) returns (end: nat, total: nat)
    requires start < |wanted| && forall k :: 0 <= k < |wanted| ==> Size(objects, wanted[k]) <= MAX_REPO_FILE_BYTES
    ensures start < end <= |wanted|
    ensures total == TotalSize(objects, wanted[start..end]) <= BLOB_BATCH_BYTES
    ensures end < |wanted| ==> TotalSize(objects, wanted[start..end]) + Size(objects, wanted[end]) > BLOB_BATCH_BYTES
  {
    end, total := start, 0;
    while end < |wanted| && (end == start || total + Size(objects, wanted[end]) <= BLOB_BATCH_BYTES)
      invariant start <= end <= |wanted|
      invariant total == TotalSize(objects, wanted[start..end]) <= BLOB_BATCH_BYTES
    {
      assert wanted[start..end + 1][..end - start] == wanted[start..end];
      total := total + Size(objects, wanted[end]);
      end := end + 1;
    }
  }

  /** Git's reply about an object. */
  function ReplyFor(objects: Objects, oid: CatFile.Oid): CatFile.Reply {
    if objects(oid).Some? then CatFile.Found(oid, CatFile.BLOB, objects(oid).value) else CatFile.Missing(oid)
  }

  function Replies(objects: Objects, es: seq<HeadEntry>): (r: seq<CatFile.Reply>)
    ensures |r| == |es| && forall k :: 0 <= k < |es| ==> r[k] == ReplyFor(objects, es[k].oid)
  {
    if es == [] then [] else [ReplyFor(objects, es[0].oid)] + Replies(objects, es[1..])
  }

  lemma {:induction false} TotalSizeCons(objects: Objects, e: HeadEntry, es: seq<HeadEntry>)
    ensures TotalSize(objects, [e] + es) == Size(objects, e) + TotalSize(objects, es)
    decreases |es|
  {
    hide Size;
    if es == [] {
      assert ([e] + es)[..0] == [];
    } else {
      TotalSizeCons(objects, e, es[..|es| - 1]);
      assert ([e] + es)[..|es|] == [e] + es[..|es| - 1];
    }
  }

  lemma {:induction false} RepliesHold(objects: Objects, es: seq<HeadEntry>)
    ensures CatFile.ContentBytes(Replies(objects, es)) == TotalSize(objects, es)
    decreases |es|
  {
    if es != [] {
      RepliesHold(objects, es[1..]);
      TotalSizeCons(objects, es[0], es[1..]);
      assert es == [es[0]] + es[1..];
      assert Replies(objects, es)[1..] == Replies(objects, es[1..]);
    }
  }

  /** Every object is a blob. */
  predicate AllThere(objects: Objects, es: seq<HeadEntry>) {
    forall k :: 0 <= k < |es| ==> objects(es[k].oid).Some?
  }

  /** Ask the child about some objects, with room for one record each and for the bytes asked
    * for: each blob's size and bytes come back, and the pass fails exactly on an object that is
    * not there. */
  method Ask(objects: Objects, es: seq<HeadEntry>, withBytes: bool, cap: nat) returns (r: Option<seq<CatFile.Sized>>)
    requires cap >= CatFile.CAT_FILE_RECORD_BYTES * |es| + if withBytes then TotalSize(objects, es) else 0
    ensures r.Some? <==> AllThere(objects, es)
    ensures r.Some? ==> |r.value| == |es|
    ensures r.Some? ==> forall k :: 0 <= k < |es| ==>
      r.value[k] == CatFile.Sized(Size(objects, es[k]), if withBytes then objects(es[k].oid).value else [])
  {
    hide TotalSize, CatFile.Printed, CatFile.TakeAll, CatFile.Expected, CatFile.ContentBytes;
    var rs := Replies(objects, es);
    var out := CatFile.Printed(rs, withBytes);
    RepliesAreOk(objects, es);
    CatFile.OutputFits(rs, withBytes);
    RepliesHold(objects, es);
    CatFile.PrintedReads(rs, withBytes, []);
    assert out + [] == out;
    r := CatFile.CatFileBlobs(out, |es|, withBytes, cap);
  }

  lemma RepliesAreOk(objects: Objects, es: seq<HeadEntry>)
    ensures var rs := Replies(objects, es);
      && (forall k :: 0 <= k < |rs| ==> CatFile.ReplyOk(rs[k]) && (CatFile.IsBlob(rs[k]) || rs[k].Missing?))
      && (CatFile.AllBlobs(rs) <==> AllThere(objects, es))
  {
    var rs := Replies(objects, es);
    assert CatFile.Word(CatFile.BLOB);
    assert forall k :: 0 <= k < |rs| ==> (CatFile.IsBlob(rs[k]) <==> objects(es[k].oid).Some?);
  }

  /** The entries whose blob is within the file cap, by the sizes the child gave. */
  method WantedBySize(objects: Objects, entries: seq<HeadEntry>, sizes: seq<CatFile.Sized>)
    returns (wanted: seq<HeadEntry>)
    requires |sizes| == |entries| && forall k :: 0 <= k < |entries| ==> sizes[k].size == Size(objects, entries[k])
    ensures wanted == Wanted(objects, entries)
  {
    hide Size;
    wanted := [];
    for k := 0 to |entries|
      invariant wanted == Wanted(objects, entries[..k])
    {
      assert entries[..k + 1][..k] == entries[..k];
      if sizes[k].size <= MAX_REPO_FILE_BYTES { wanted := wanted + [entries[k]]; }
    }
    assert entries[..|entries|] == entries;
  }

  /** What was read of a list of entries: each with its object's bytes. */
  ghost predicate Read(objects: Objects, es: seq<HeadEntry>, read: seq<(HeadEntry, seq<byte>)>) {
    |read| == |es| && forall k :: 0 <= k < |es| ==> read[k].0 == es[k] && objects(es[k].oid) == Some(read[k].1)
  }

  lemma ReadTwo(
    objects: Objects, a: seq<HeadEntry>, x: seq<(HeadEntry, seq<byte>)>, b: seq<HeadEntry>,
    y: seq<(HeadEntry, seq<byte>)>)
    requires Read(objects, a, x) && Read(objects, b, y)
    ensures Read(objects, a + b, x + y)
  {
  }

  /** Read one batch. */
  method ReadBatch(objects: Objects, batch: seq<HeadEntry>, total: nat) returns (read: seq<(HeadEntry, seq<byte>)>)
    requires AllThere(objects, batch) && total == TotalSize(objects, batch)
    ensures Read(objects, batch, read)
  {
    hide TotalSize, Size;
    var blobs := Ask(objects, batch, true, total + CatFile.CAT_FILE_RECORD_BYTES * |batch|);
    read := [];
    for k := 0 to |batch|
      invariant |read| == k && forall j :: 0 <= j < k ==>
        read[j].0 == batch[j] && objects(batch[j].oid) == Some(read[j].1)
    {
      read := read + [(batch[k], blobs.value[k].body)];
    }
  }

  lemma WantedAreThere(objects: Objects, es: seq<HeadEntry>, a: nat, b: nat)
    requires AllThere(objects, es) && a <= b <= |Wanted(objects, es)|
    ensures AllThere(objects, Wanted(objects, es)[a..b])
  {
    var wanted := Wanted(objects, es);
    forall k | 0 <= k < b - a ensures objects(wanted[a..b][k].oid).Some? {
      assert wanted[a + k] in es;
    }
  }

  /** HEAD's content of `entries`, read batch by batch through `git cat-file`: the sizes first, so
    * an oversized blob is never read. None exactly when an object is missing or not a blob. */
  method ForEachHeadBlob(objects: Objects, entries: seq<HeadEntry>)
    returns (blobs: Option<seq<(HeadEntry, seq<byte>)>>, ghost batches: seq<seq<HeadEntry>>)
    ensures blobs.Some? <==> AllThere(objects, entries)
    ensures blobs.Some? ==>
      Batched(objects, Wanted(objects, entries), batches) && Read(objects, Wanted(objects, entries), blobs.value)
  {
    hide Batched, TotalSize, Size, Wanted, Read, AllThere;
    batches := [];
    var sizes := Ask(objects, entries, false, CatFile.CAT_FILE_RECORD_BYTES * |entries|);
    if sizes.None? { return None, []; }
    var wanted := WantedBySize(objects, entries, sizes.value);
    WantedFit(objects, entries);
    var read: seq<(HeadEntry, seq<byte>)> := [];
    var start := 0;
    NothingBatched(objects, wanted);
    while start < |wanted|
      invariant 0 <= start <= |wanted|
      invariant Batched(objects, wanted[..start], batches) && Read(objects, wanted[..start], read)
      invariant start < |wanted| && batches != [] ==>
        TotalSize(objects, batches[|batches| - 1]) + Size(objects, wanted[start]) > BLOB_BATCH_BYTES
    {
      var end, total := NextBatch(objects, wanted, start);
      var batch := wanted[start..end];
      WantedAreThere(objects, entries, start, end);
      var more := ReadBatch(objects, batch, total);
      ReadTwo(objects, wanted[..start], read, batch, more);
      BatchedGrows(objects, wanted[..start], batches, batch);
      assert wanted[..end] == wanted[..start] + batch;
      read, batches := read + more, batches + [batch];
      start := end;
    }
    assert wanted[..start] == wanted;
    blobs := Some(read);
  }

  lemma WantedFit(objects: Objects, es: seq<HeadEntry>)
    ensures var wanted := Wanted(objects, es); forall k :: 0 <= k < |wanted| ==>
      Size(objects, wanted[k]) <= MAX_REPO_FILE_BYTES
  {
  }

  lemma NothingBatched(objects: Objects, wanted: seq<HeadEntry>)
    ensures Batched(objects, wanted[..0], []) && Read(objects, wanted[..0], [])
  {
  }

  lemma BatchedGrows(objects: Objects, done: seq<HeadEntry>, batches: seq<seq<HeadEntry>>, batch: seq<HeadEntry>)
    requires Batched(objects, done, batches) && WithinBound(objects, batch)
    requires batches != [] ==> Overflows(objects, batches[|batches| - 1], batch)
    ensures Batched(objects, done + batch, batches + [batch])
  {
    hide WithinBound, Overflows;
    assert (batches + [batch])[..|batches|] == batches;
  }

  function RegularOnly(changes: seq<HeadEntry>): (r: seq<HeadEntry>)
    ensures forall e :: e in r <==> e in changes && IsRegular(e.mode)
  {
    if changes == [] then []
    else
      var init, e := RegularOnly(changes[..|changes| - 1]), changes[|changes| - 1];
      if IsRegular(e.mode) then init + [e] else init
  }

  predicate Names(changes: seq<HeadEntry>, p: Path) {
    exists k :: 0 <= k < |changes| && changes[k].path == p
  }

  lemma {:induction false} WantedHolds(objects: Objects, es: seq<HeadEntry>, e: HeadEntry)
    ensures e in Wanted(objects, es) <==> e in es && Size(objects, e) <= MAX_REPO_FILE_BYTES
  {
    if es != [] {
      WantedHolds(objects, es[..|es| - 1], e);
      assert es == es[..|es| - 1] + [es[|es| - 1]];
    }
  }

  /** The hashes after the uncommitted paths were dropped and HEAD's blobs put in. */
  function WithBlobs(hashes: Hashes, blobs: seq<(HeadEntry, seq<byte>)>, sha: seq<byte> -> Hex): Hashes {
    if blobs == [] then hashes
    else
      var last := blobs[|blobs| - 1];
      WithBlobs(hashes, blobs[..|blobs| - 1], sha)[last.0.path := sha(last.1)]
  }

  lemma {:induction false} WithBlobsLookup(
    hashes: Hashes, blobs: seq<(HeadEntry, seq<byte>)>, sha: seq<byte> -> Hex, p: Path)
    ensures (forall k :: 0 <= k < |blobs| ==> blobs[k].0.path != p) ==>
      Lookup(WithBlobs(hashes, blobs, sha), p) == Lookup(hashes, p)
    ensures (exists k :: 0 <= k < |blobs| && blobs[k].0.path == p) ==>
      exists k :: 0 <= k < |blobs| && blobs[k].0.path == p &&
        Lookup(WithBlobs(hashes, blobs, sha), p) == Some(sha(blobs[k].1))
  {
    if blobs != [] {
      var init := blobs[..|blobs| - 1];
      WithBlobsLookup(hashes, init, sha, p);
      if blobs[|blobs| - 1].0.path != p && exists k :: 0 <= k < |blobs| && blobs[k].0.path == p {
        var k :| 0 <= k < |blobs| && blobs[k].0.path == p;
        assert init[k].0.path == p;
        var j :| 0 <= j < |init| && init[j].0.path == p &&
          Lookup(WithBlobs(hashes, init, sha), p) == Some(sha(init[j].1));
        assert blobs[j] == init[j];
      }
    }
  }

  /** The paths of `changes`. */
  function Paths(changes: seq<HeadEntry>): seq<Path>
  {
    seq(|changes|, k requires 0 <= k < |changes| => changes[k].path)
  }

  lemma NamesGrow(changes: seq<HeadEntry>, k: nat, p: Path)
    requires k < |changes|
    ensures Names(changes[..k + 1], p) <==> Names(changes[..k], p) || changes[k].path == p
  {
    if changes[k].path == p { assert changes[..k + 1][k].path == p; }
    if Names(changes[..k], p) {
      var j :| 0 <= j < k && changes[..k][j].path == p;
      assert changes[..k + 1][j].path == p;
    }
  }

  /** Leave the uncommitted paths out. */
  method DropAll(tracked: Hashes, changes: seq<HeadEntry>) returns (hashes: Hashes)
    ensures forall p :: Lookup(hashes, p) == if Names(changes, p) then None else Lookup(tracked, p)
  {
    hashes := tracked;
    for k := 0 to |changes|
      invariant forall p :: Lookup(hashes, p) == if Names(changes[..k], p) then None else Lookup(tracked, p)
    {
      ghost var before: Hashes := hashes;
      hashes := Without(hashes, changes[k].path);
      forall p ensures Lookup(hashes, p) == if Names(changes[..k + 1], p) then None else Lookup(tracked, p) {
        NamesGrow(changes, k, p);
        assert Lookup(hashes, p) == if changes[k].path == p then None else Lookup(before, p);
      }
    }
    assert changes[..|changes|] == changes;
  }

  method PutBlobs(dropped: Hashes, blobs: seq<(HeadEntry, seq<byte>)>, sha: seq<byte> -> Hex)
    returns (hashes: Hashes)
    ensures hashes == WithBlobs(dropped, blobs, sha)
  {
    hashes := dropped;
    for k := 0 to |blobs|
      invariant hashes == WithBlobs(dropped, blobs[..k], sha)
    {
      assert blobs[..k + 1][..k] == blobs[..k];
      var (entry, bytes) := blobs[k];
      hashes := hashes[entry.path := sha(bytes)];
    }
    assert blobs[..|blobs|] == blobs;
  }

  /** Build a baseline: the committed state for an automatic reason, the worktree as it is for
    * an explicit one. None when a HEAD blob cannot be read. */
  method BuildBaseline(
    tracked: Hashes, changes: seq<HeadEntry>, objects: Objects, reason: Reason, sha: seq<byte> -> Hex)
    returns (b: Option<Baseline>)
    ensures b.None? <==> !reason.Admin? && exists e :: e in changes && IsRegular(e.mode) && objects(e.oid).None?
    ensures b.Some? && reason.Admin? ==>
      b.value.hashes == tracked && b.value.takenIn == Some(Paths(changes)) && b.value.dirty == (changes != []) &&
        b.value.fromHead == 0
    ensures b.Some? && !reason.Admin? ==>
      && b.value.takenIn == Some([]) && !b.value.dirty
      && b.value.fromHead == |set k | 0 <= k < |changes| :: changes[k].path|
    ensures forall head :: b.Some? && !reason.Admin? && ExactChanges(head, objects, sha, tracked, changes) ==>
      b.value.hashes == HeadHashes(head, objects, sha)
  {
    var committed := !reason.Admin?;
    if !committed {
      return Some(Baseline(tracked, |changes| > 0, Some(Paths(changes)), 0));
    }
    var dropped := DropAll(tracked, changes);
    var blobs, batches := ForEachHeadBlob(objects, RegularOnly(changes));
    if blobs.None? { return None; }
    var hashes := PutBlobs(dropped, blobs.value, sha);
    forall head | ExactChanges(head, objects, sha, tracked, changes)
      ensures hashes == HeadHashes(head, objects, sha)
    {
      AutomaticIsCommitted(head, objects, sha, tracked, changes, dropped, blobs.value);
    }
    b := Some(Baseline(hashes, false, Some([]), |set k | 0 <= k < |changes| :: changes[k].path|));
  }

  /** Dropping every uncommitted path and putting HEAD's regular blobs in gives the committed
    * state. */
  lemma AutomaticIsCommitted(
    head: map<Path, HeadFile>, objects: Objects, sha: seq<byte> -> Hex, tracked: Hashes, changes: seq<HeadEntry>,
    dropped: Hashes, blobs: seq<(HeadEntry, seq<byte>)>)
    requires ExactChanges(head, objects, sha, tracked, changes)
    requires forall p :: Lookup(dropped, p) == if Names(changes, p) then None else Lookup(tracked, p)
    requires forall e :: e in changes && IsRegular(e.mode) ==> objects(e.oid).Some?
    requires var wanted := Wanted(objects, RegularOnly(changes));
      && |blobs| == |wanted|
      && forall k :: 0 <= k < |wanted| ==> blobs[k].0 == wanted[k] && objects(wanted[k].oid) == Some(blobs[k].1)
    ensures WithBlobs(dropped, blobs, sha) == HeadHashes(head, objects, sha)
  {
    forall p
      ensures Lookup(WithBlobs(dropped, blobs, sha), p) == Lookup(HeadHashes(head, objects, sha), p)
    {
      CommittedAt(head, objects, sha, tracked, changes, dropped, blobs, p);
    }
    SameHashes(WithBlobs(dropped, blobs, sha), HeadHashes(head, objects, sha));
  }

  lemma CommittedAt(
    head: map<Path, HeadFile>, objects: Objects, sha: seq<byte> -> Hex, tracked: Hashes, changes: seq<HeadEntry>,
    dropped: Hashes, blobs: seq<(HeadEntry, seq<byte>)>, p: Path)
    requires ExactChanges(head, objects, sha, tracked, changes)
    requires Lookup(dropped, p) == if Names(changes, p) then None else Lookup(tracked, p)
    requires forall e :: e in changes && IsRegular(e.mode) ==> objects(e.oid).Some?
    requires var wanted := Wanted(objects, RegularOnly(changes));
      && |blobs| == |wanted|
      && forall k :: 0 <= k < |wanted| ==> blobs[k].0 == wanted[k] && objects(wanted[k].oid) == Some(blobs[k].1)
    ensures Lookup(WithBlobs(dropped, blobs, sha), p) == Lookup(HeadHashes(head, objects, sha), p)
  {
    hide Wanted, RegularOnly, WithBlobs;
    WithBlobsLookup(dropped, blobs, sha, p);
    var wanted := Wanted(objects, RegularOnly(changes));
    forall k | 0 <= k < |blobs| && blobs[k].0.path == p
      ensures p in head && Counted(head[p], objects) && sha(blobs[k].1) == sha(objects(head[p].oid).value) &&
        Names(changes, p)
    {
      var e := wanted[k];
      WantedHolds(objects, RegularOnly(changes), e);
      assert e in changes;
      var j :| 0 <= j < |changes| && changes[j] == e;
      assert changes[j].path == p;
    }
    if Names(changes, p) && p in head && Counted(head[p], objects) {
      var j :| 0 <= j < |changes| && changes[j].path == p;
      var e := changes[j];
      assert e in changes;
      WantedHolds(objects, RegularOnly(changes), e);
      var k :| 0 <= k < |wanted| && wanted[k] == e;
      assert blobs[k].0.path == p;
    }
  }

  /** Whatever its reason, a baseline that was built holds the committed state outside what it
    * took in. */
  lemma EveryBaselineIsBuiltOn(
    b: Baseline, head: map<Path, HeadFile>, objects: Objects, sha: seq<byte> -> Hex, tracked: Hashes,
    changes: seq<HeadEntry>)
    requires ExactChanges(head, objects, sha, tracked, changes)
    requires b.hashes == HeadHashes(head, objects, sha) || (b.hashes == tracked && b.takenIn == Some(Paths(changes)))
    ensures BuiltOn(b, HeadHashes(head, objects, sha))
  {
    if b.hashes == tracked && b.takenIn == Some(Paths(changes)) {
      forall p | p !in b.takenIn.value
        ensures Lookup(b.hashes, p) == Lookup(HeadHashes(head, objects, sha), p)
      {
        assert forall k :: 0 <= k < |changes| ==> Paths(changes)[k] == changes[k].path;
        assert forall k :: 0 <= k < |changes| ==> changes[k].path != p;
      }
    }
  }

  // ---- drift ---------------------------------------------------------------------------------------

  /** Deleted from the index only: not tracked, whatever the worktree still holds. */
  predicate RemovedFromIndex(e: StatusEntry) { e.x == 'D' as int && e.y == ' ' as int }

  predicate Renamed(e: StatusEntry) { (e.x == 'R' as int || e.y == 'R' as int) && e.orig.Some? }

  datatype State = State(layoutPrefix: Option<seq<byte>>, status: seq<StatusEntry>, dirty: map<Path, Content>)

  /** A path's content in the baseline's terms: its hash, or no entry; None overall when the
    * observation cannot tell. */
  function ComparableHash(c: Content): Option<Option<Hex>> {
    match c
    case Sha256(d) => Some(Some(d))
    case Deleted | Symlink(_) | NestedRepo(_, _) | Incomplete(NotRegular) => Some(None)
    case Incomplete(Oversized(n)) => if n > MAX_REPO_FILE_BYTES then Some(None) else None
    case Incomplete(_) | Unhashed => None
  }

  /** What the listing says of the tracked entry `e`. */
  function EntryHash(state: State, e: StatusEntry): Option<Option<Hex>> {
    if RemovedFromIndex(e) then Some(None)
    else if e.path in state.dirty then ComparableHash(state.dirty[e.path])
    else None
  }

  predicate Lists(state: State, p: Path) {
    exists k :: 0 <= k < |state.status| && !Untracked(state.status[k]) && state.status[k].path == p
  }

  predicate RenamedAway(state: State, p: Path) {
    exists k :: 0 <= k < |state.status| && !Untracked(state.status[k]) && Renamed(state.status[k]) &&
      state.status[k].orig.value == p
  }

  /** The status listing is exact about the tracked files' hashes `full`: what a listed entry
    * says, nothing where a rename left, and HEAD's content everywhere else. */
  ghost predicate ExactStatus(state: State, committed: Hashes, full: Hashes) {
    && (forall k :: 0 <= k < |state.status| && !Untracked(state.status[k]) ==>
          var said := EntryHash(state, state.status[k]);
          said.Some? ==> said.value == Lookup(full, state.status[k].path))
    && (forall p :: RenamedAway(state, p) && !Lists(state, p) ==> p !in full)
    && (forall p :: !Lists(state, p) && !RenamedAway(state, p) ==> Lookup(full, p) == Lookup(committed, p))
  }

  /** The paths an explicit baseline took in; None for a legacy dirty baseline, which does not
    * say. */
  function TakenIn(b: Baseline): Option<seq<Path>> {
    if b.takenIn.Some? then b.takenIn else if !b.dirty then Some([]) else None
  }

  /** Whether the listing alone decides drift: every tracked entry is UTF-8 and identified. */
  predicate Decidable(b: Baseline, state: State) {
    && state.layoutPrefix == Some([])
    && TakenIn(b).Some?
    && (forall k :: 0 <= k < |state.status| && !Untracked(state.status[k]) ==>
          var e := state.status[k];
          Utf8.Valid(e.path) && EntryHash(state, e).Some? && (Renamed(e) ==> Utf8.Valid(e.orig.value)))
  }

  type Compared = map<Path, Option<Hex>>

  /** What the first `k` entries put up for comparison: each tracked entry's path with what is
    * said of it, and a rename's source, unless it is listed itself, with nothing. */
  function Current(state: State, k: nat): Compared
    requires k <= |state.status|
  {
    if k == 0 then map[]
    else
      var before, e := Current(state, k - 1), state.status[k - 1];
      if Untracked(e) || EntryHash(state, e).None? then before
      else
        var here := before[e.path := EntryHash(state, e).value];
        if Renamed(e) && e.orig.value !in here then here[e.orig.value := None] else here
  }

  /** A taken-in path that is clean now holds HEAD's content again. */
  predicate Reverted(b: Baseline, current: Compared) {
    TakenIn(b).Some? && exists k :: 0 <= k < |TakenIn(b).value| && TakenIn(b).value[k] !in current
  }

  predicate Differs(b: Baseline, current: Compared) {
    exists p :: p in current && Lookup(b.hashes, p) != current[p]
  }

  function Decision(b: Baseline, state: State): Option<bool> {
    var current := Current(state, |state.status|);
    if Decidable(b, state) then Some(Reverted(b, current) || Differs(b, current)) else None
  }

  /** The listed entries before `k` name `p`. */
  ghost predicate ListsBefore(state: State, k: nat, p: Path)
    requires k <= |state.status|
  {
    exists j :: 0 <= j < k && !Untracked(state.status[j]) && state.status[j].path == p
  }

  ghost predicate RenamedBefore(state: State, k: nat, p: Path)
    requires k <= |state.status|
  {
    exists j :: 0 <= j < k && !Untracked(state.status[j]) && Renamed(state.status[j]) &&
      state.status[j].orig.value == p
  }

  lemma BeforeGrows(state: State, k: nat, p: Path)
    requires k < |state.status|
    ensures var e := state.status[k];
      && (ListsBefore(state, k + 1, p) <==> ListsBefore(state, k, p) || (!Untracked(e) && e.path == p))
      && (RenamedBefore(state, k + 1, p) <==>
        RenamedBefore(state, k, p) || (!Untracked(e) && Renamed(e) && e.orig.value == p))
  {
  }

  /** The comparison holds exactly the listed and renamed-away paths, each with what the
    * tracked files hold there. */
  lemma {:induction false} CurrentHolds(state: State, k: nat, committed: Hashes, full: Hashes, p: Path)
    requires k <= |state.status| && ExactStatus(state, committed, full)
    requires forall j :: 0 <= j < k && !Untracked(state.status[j]) ==> EntryHash(state, state.status[j]).Some?
    ensures var current := Current(state, k);
      && (p in current <==> ListsBefore(state, k, p) || RenamedBefore(state, k, p))
      && (p in current && ListsBefore(state, k, p) ==> current[p] == Lookup(full, p))
      && (p in current && !ListsBefore(state, k, p) ==> current[p] == None)
    decreases k
  {
    hide EntryHash;
    if k > 0 {
      CurrentHolds(state, k - 1, committed, full, p);
      BeforeGrows(state, k - 1, p);
    }
  }

  /** At every path the comparison is the tracked files' hash, and elsewhere it is HEAD's. */
  lemma CurrentIsFull(b: Baseline, state: State, committed: Hashes, full: Hashes, p: Path)
    requires Decidable(b, state) && ExactStatus(state, committed, full)
    ensures var current := Current(state, |state.status|);
      if p in current then current[p] == Lookup(full, p) else Lookup(full, p) == Lookup(committed, p)
  {
    var n := |state.status|;
    CurrentHolds(state, n, committed, full, p);
    assert ListsBefore(state, n, p) <==> Lists(state, p);
    assert RenamedBefore(state, n, p) <==> RenamedAway(state, p);
  }

  /** Listed drift refines full drift: "unchanged" means the full hash map is the baseline's,
    * and "changed" means it is not, or that a path taken in was reverted. */
  lemma ListedRefinesFull(b: Baseline, state: State, committed: Hashes, full: Hashes)
    requires Decidable(b, state) && ExactStatus(state, committed, full)
    requires BuiltOn(b.(takenIn := TakenIn(b)), committed)
    ensures Decision(b, state) == Some(full != b.hashes || Reverted(b, Current(state, |state.status|)))
  {
    var current := Current(state, |state.status|);
    SameHashes(full, b.hashes);
    if !Reverted(b, current) {
      if Differs(b, current) {
        var p :| p in current && Lookup(b.hashes, p) != current[p];
        CurrentIsFull(b, state, committed, full, p);
        assert Lookup(full, p) != Lookup(b.hashes, p);
      } else {
        forall p ensures Lookup(full, p) == Lookup(b.hashes, p) {
          CurrentIsFull(b, state, committed, full, p);
        }
      }
    }
  }

  /** Each taken-in path's recorded hash differs from HEAD's. */
  predicate TakenInDiffers(b: Baseline, committed: Hashes) {
    TakenIn(b).Some? ==> forall k :: 0 <= k < |TakenIn(b).value| ==>
      Lookup(b.hashes, TakenIn(b).value[k]) != Lookup(committed, TakenIn(b).value[k])
  }

  /** Whatever exact listing it is given, the decision is whether the full map differs. */
  ghost predicate AlwaysExact(b: Baseline, committed: Hashes) {
    forall state, full :: Decidable(b, state) && ExactStatus(state, committed, full) ==>
      Decision(b, state) == Some(full != b.hashes)
  }

  lemma DifferingIsExact(b: Baseline, committed: Hashes)
    requires TakenIn(b).Some? && BuiltOn(b.(takenIn := TakenIn(b)), committed) && TakenInDiffers(b, committed)
    ensures AlwaysExact(b, committed)
  {
    forall state, full | Decidable(b, state) && ExactStatus(state, committed, full)
      ensures Decision(b, state) == Some(full != b.hashes)
    {
      ListedRefinesFull(b, state, committed, full);
      var current := Current(state, |state.status|);
      if Reverted(b, current) {
        var k :| 0 <= k < |TakenIn(b).value| && TakenIn(b).value[k] !in current;
        var p := TakenIn(b).value[k];
        CurrentIsFull(b, state, committed, full, p);
        assert Lookup(full, p) != Lookup(b.hashes, p);
        SameHashes(full, b.hashes);
      }
    }
  }

  // A path taken in with HEAD's own content (only its mode had changed, say) misleads the
  // listing once it is clean again.

  /** The state in which every taken-in path but `p` is dirty as it was taken in. */
  function CleanAt(b: Baseline, p: Path): State
    requires TakenIn(b).Some?
  {
    State(Some([]), DirtyBut(TakenIn(b).value, p),
          map q | q in TakenIn(b).value && q != p :: if q in b.hashes then Sha256(b.hashes[q]) else Deleted)
  }

  function DirtyBut(paths: seq<Path>, p: Path): (r: seq<StatusEntry>)
    ensures forall k :: 0 <= k < |r| ==>
      r[k].path in paths && r[k].path != p && r[k].x == ' ' as int && r[k].y == 'M' as int && r[k].orig.None?
    ensures forall q :: q in paths && q != p ==> exists k :: 0 <= k < |r| && r[k].path == q
  {
    if paths == [] then []
    else
      var init, q := DirtyBut(paths[..|paths| - 1], p), paths[|paths| - 1];
      assert forall x :: x in paths ==> x in paths[..|paths| - 1] || x == q;
      if q == p then init
      else
        var r := init + [StatusEntry(' ' as int, 'M' as int, q, None)];
        assert forall k :: 0 <= k < |init| ==> r[k] == init[k];
        assert r[|init|].path == q;
        r
  }

  lemma CleanAtMisleads(b: Baseline, committed: Hashes, p: Path)
    requires TakenIn(b).Some? && BuiltOn(b.(takenIn := TakenIn(b)), committed)
    requires forall q :: q in TakenIn(b).value ==> Utf8.Valid(q)
    requires p in TakenIn(b).value && Lookup(b.hashes, p) == Lookup(committed, p)
    ensures var state := CleanAt(b, p);
      Decidable(b, state) && ExactStatus(state, committed, b.hashes) && Decision(b, state) == Some(true)
  {
    hide ExactStatus, Current, DirtyBut;
    CleanAtIsExact(b, committed, p);
    CleanAtOmits(b, p);
    var state := CleanAt(b, p);
    var n := |state.status|;
    CurrentHolds(state, n, committed, b.hashes, p);
    var k :| 0 <= k < |TakenIn(b).value| && TakenIn(b).value[k] == p;
    assert TakenIn(b).value[k] !in Current(state, n);
  }

  lemma CleanAtOmits(b: Baseline, p: Path)
    requires TakenIn(b).Some?
    ensures var state := CleanAt(b, p);
      && !ListsBefore(state, |state.status|, p) && !RenamedBefore(state, |state.status|, p)
      && (forall q :: !RenamedAway(state, q))
      && (forall q :: Lists(state, q) <==> q in TakenIn(b).value && q != p)
      && (forall k :: 0 <= k < |state.status| ==>
        EntryHash(state, state.status[k]) == Some(Lookup(b.hashes, state.status[k].path)))
  {
  }

  lemma CleanAtIsExact(b: Baseline, committed: Hashes, p: Path)
    requires TakenIn(b).Some? && BuiltOn(b.(takenIn := TakenIn(b)), committed)
    requires p in TakenIn(b).value && Lookup(b.hashes, p) == Lookup(committed, p)
    ensures ExactStatus(CleanAt(b, p), committed, b.hashes)
  {
    hide CleanAt, Lists, RenamedAway, EntryHash;
    CleanAtOmits(b, p);
  }

  /** The listed comparison answers exactly as the full one in every exact state if and only
    * if no path was taken in with the content HEAD has for it. */
  lemma ExactExactlyWhenTakenInDiffers(b: Baseline, committed: Hashes)
    requires TakenIn(b).Some? && BuiltOn(b.(takenIn := TakenIn(b)), committed)
    requires forall q :: q in TakenIn(b).value ==> Utf8.Valid(q)
    ensures AlwaysExact(b, committed) <==> TakenInDiffers(b, committed)
  {
    if TakenInDiffers(b, committed) {
      DifferingIsExact(b, committed);
    } else {
      var k :| 0 <= k < |TakenIn(b).value| &&
        Lookup(b.hashes, TakenIn(b).value[k]) == Lookup(committed, TakenIn(b).value[k]);
      CleanAtMisleads(b, committed, TakenIn(b).value[k]);
    }
  }

  // ---- the comparison as it runs -----------------------------------------------------------------

  /** Gather the listed paths; None at the first entry that cannot be compared. */
  method GatherCurrent(state: State) returns (current: Option<Compared>)
    ensures current.Some? <==> forall k :: 0 <= k < |state.status| && !Untracked(state.status[k]) ==>
      var e := state.status[k];
      Utf8.Valid(e.path) && EntryHash(state, e).Some? && (Renamed(e) ==> Utf8.Valid(e.orig.value))
    ensures current.Some? ==> current.value == Current(state, |state.status|)
  {
    var m: Compared := map[];
    for k := 0 to |state.status|
      invariant m == Current(state, k)
      invariant forall j :: 0 <= j < k && !Untracked(state.status[j]) ==>
        var e := state.status[j];
        Utf8.Valid(e.path) && EntryHash(state, e).Some? && (Renamed(e) ==> Utf8.Valid(e.orig.value))
    {
      var e := state.status[k];
      if !Untracked(e) {
        if !Utf8.Valid(e.path) { return None; }
        var said := EntryHash(state, e);
        if said.None? { return None; }
        m := m[e.path := said.value];
        if Renamed(e) {
          if !Utf8.Valid(e.orig.value) { return None; }
          if e.orig.value !in m { m := m[e.orig.value := None]; }
        }
      }
    }
    current := Some(m);
  }

  /** Compare only what the listing names, when that can decide. */
  method ListedContentChanged(b: Baseline, state: State) returns (r: Option<(bool, nat)>)
    ensures (if r.Some? then Some(r.value.0) else None) == Decision(b, state)
    ensures r.Some? ==> r.value.1 == |Current(state, |state.status|)| + |set p | p in TakenIn(b).value|
  {
    if state.layoutPrefix != Some([]) { return None; }
    var takenIn := TakenIn(b);
    if takenIn.None? { return None; }
    var current := GatherCurrent(state);
    if current.None? { return None; }
    var reverted := Reverted(b, current.value);
    var changed := reverted || Differs(b, current.value);
    r := Some((changed, |current.value| + |set p | p in takenIn.value|));
  }

  /** Whether tracked content differs from the baseline: the listing's answer while HEAD has
    * not moved and it decides, else the comparison of every tracked file. */
  method ContentChanged(b: Baseline, state: State, headChanged: bool, full: Hashes)
    returns (changed: bool, listed: bool)
    ensures listed <==> !headChanged && Decidable(b, state)
    ensures !listed ==> changed == (full != b.hashes)
    ensures listed ==> Some(changed) == Decision(b, state)
    ensures forall committed ::
      (listed ==> ExactStatus(state, committed, full) && BuiltOn(b.(takenIn := TakenIn(b)), committed)) ==>
      && (!changed ==> full == b.hashes)
      && (TakenInDiffers(b, committed) ==> changed == (full != b.hashes))
  {
    if !headChanged {
      var decided := ListedContentChanged(b, state);
      if decided.Some? {
        forall committed | ExactStatus(state, committed, full) && BuiltOn(b.(takenIn := TakenIn(b)), committed)
          ensures !decided.value.0 ==> full == b.hashes
          ensures TakenInDiffers(b, committed) ==> decided.value.0 == (full != b.hashes)
        {
          ListedRefinesFull(b, state, committed, full);
          if TakenInDiffers(b, committed) { DifferingIsExact(b, committed); }
        }
        return decided.value.0, true;
      }
    }
    return full != b.hashes, false;
  }
}
