/** Every interleaving of edits, hashing passes and cache writes. */
module RacyCache {
  import opened Base
  import opened StatCache

  // Time is the filesystem's clock. A change of a file stamps its ctime at most `granularity`
  // behind that clock; everything else about the new key is arbitrary, the mtime included. A
  // pass is not atomic: edits fall between its stat and its read of a file, and several passes
  // run at once, each from the cache it loaded.

  type Path = string

  datatype File = File(content: seq<byte>, key: StatKey)

  /** A file statted under a key and being read; `clean` until an edit reaches it. */
  datatype Reading = Reading(path: Path, key: StatKey, clean: bool)

  datatype Pass = Pass(start: int, loaded: Cache<Path>, reading: Option<Reading>, rows: map<Path, Entry>)

  datatype System = System(now: int, files: map<Path, File>, stored: Option<Cache<Path>>, passes: map<nat, Pass>)

  /** `granularity` of the filesystem's timestamps, and the `slack` by which a recorded pass
    * start may be later than the true one. */
  datatype Params = Params(granularity: nat, slack: nat, window: i64, sha: seq<byte> -> Digest)

  datatype Event =
    | Tick(to: int)
    | Change(path: Path, file: Option<File>)
    | Begin(id: nat)
    | Stat(id: nat, path: Path)
    | Finish(id: nat, digest: Digest)
    | Store(id: nat, host: i64, written: i64, elapsed: i64)
    | DropCache

  predicate Initial(s: System) {
    s.stored.None? && s.passes == map[]
  }

  predicate Enabled(c: Params, s: System, e: Event) {
    match e
    case Tick(to) => s.now <= to
    case Change(_, file) =>
      file.Some? ==> s.now - c.granularity <= file.value.key.ctime <= s.now
    case Begin(id) => id !in s.passes
    case Stat(id, path) => id in s.passes && s.passes[id].reading.None? && path in s.files
    case Finish(id, digest) =>
      && id in s.passes && s.passes[id].reading.Some?
      && var r := s.passes[id].reading.value;
         // a read that no edit reached hashed the file's bytes; a torn one, anything
         r.clean && r.path in s.files ==> digest == c.sha(s.files[r.path].content)
    case Store(id, host, written, elapsed) =>
      && id in s.passes
      && RecordedStart(host, written, elapsed) <= s.passes[id].start + c.slack
    case DropCache => true
  }

  function Torn(p: Pass, path: Path): Pass {
    if p.reading.Some? && p.reading.value.path == path
    then p.(reading := Some(p.reading.value.(clean := false))) else p
  }

  function Apply(c: Params, s: System, e: Event): System
    requires Enabled(c, s, e)
  {
    match e
    case Tick(to) => s.(now := to)
    case Change(path, file) =>
      s.(files := if file.Some? then s.files[path := file.value] else s.files - {path},
         passes := map id | id in s.passes :: Torn(s.passes[id], path))
    case Begin(id) =>
      var loaded := if s.stored.Some? then s.stored.value else NoCache();
      s.(passes := s.passes[id := Pass(s.now, loaded, None, map[])])
    case Stat(id, path) =>
      var p, key := s.passes[id], s.files[path].key;
      var p' := if p.loaded.Vouches(path, key, c.window)
                then p.(rows := p.rows[path := Entry(key, p.loaded.entries[path].digest)])
                else p.(reading := Some(Reading(path, key, true)));
      s.(passes := s.passes[id := p'])
    case Finish(id, digest) =>
      var p := s.passes[id];
      var r := p.reading.value;
      s.(passes := s.passes[id := p.(reading := None, rows := p.rows[r.path := Entry(r.key, digest)])])
    case Store(id, host, written, elapsed) =>
      s.(stored := Some(Cache(RecordedStart(host, written, elapsed), s.passes[id].rows)), passes := s.passes - {id})
    case DropCache => s.(stored := None)
  }

  // ---- the trust invariant --------------------------------------------------------------

  /** An entry older than `cutoff` whose key the file still has holds the file's hash. */
  ghost predicate Sound(c: Params, files: map<Path, File>, entries: map<Path, Entry>, cutoff: int) {
    forall p :: p in entries && p in files && entries[p].key == files[p].key && entries[p].key.Newest() < cutoff ==>
      entries[p].digest == c.sha(files[p].content)
  }

  ghost predicate CacheOk(c: Params, now: int, files: map<Path, File>, cache: Cache<Path>) {
    && Sound(c, files, cache.entries, cache.recorded - c.window)
    && (cache.entries == map[] || cache.recorded <= now + c.slack)
  }

  /** A clean read is of the file as statted; a torn one, of a file stamped since the start. */
  ghost predicate ReadingOk(c: Params, files: map<Path, File>, start: int, r: Reading) {
    if r.clean then r.path in files && files[r.path].key == r.key
    else r.path in files ==> files[r.path].key.ctime >= start - c.granularity
  }

  ghost predicate PassOk(c: Params, now: int, files: map<Path, File>, p: Pass) {
    && p.start <= now
    && CacheOk(c, now, files, p.loaded)
    && Sound(c, files, p.rows, p.start - c.granularity)
    && (p.reading.Some? ==> ReadingOk(c, files, p.start, p.reading.value))
  }

  ghost predicate Inv(c: Params, s: System) {
    && (s.stored.Some? ==> CacheOk(c, s.now, s.files, s.stored.value))
    && forall id :: id in s.passes ==> PassOk(c, s.now, s.files, s.passes[id])
  }

  /** The window leaves room for the granularity and the slack. */
  predicate WideEnough(c: Params) { c.granularity + c.slack <= c.window }

  /** A change makes no sound set of entries unsound: it stamps the file past the cutoff. */
  lemma SoundAcrossChange(c: Params, s: System, path: Path, file: Option<File>, entries: map<Path, Entry>, cutoff: int)
    requires Enabled(c, s, Change(path, file)) && Sound(c, s.files, entries, cutoff)
    requires cutoff <= s.now - c.granularity
    ensures Sound(c, Apply(c, s, Change(path, file)).files, entries, cutoff)
  {
  }

  lemma CacheAcrossChange(c: Params, s: System, path: Path, file: Option<File>, cache: Cache<Path>)
    requires WideEnough(c) && Enabled(c, s, Change(path, file)) && CacheOk(c, s.now, s.files, cache)
    ensures CacheOk(c, s.now, Apply(c, s, Change(path, file)).files, cache)
  {
    if cache.entries != map[] {
      SoundAcrossChange(c, s, path, file, cache.entries, cache.recorded - c.window);
    }
  }

  lemma ChangeKeeps(c: Params, s: System, path: Path, file: Option<File>)
    requires WideEnough(c) && Inv(c, s) && Enabled(c, s, Change(path, file))
    ensures Inv(c, Apply(c, s, Change(path, file)))
  {
    var s' := Apply(c, s, Change(path, file));
    if s.stored.Some? { CacheAcrossChange(c, s, path, file, s.stored.value); }
    forall id | id in s'.passes
      ensures PassOk(c, s'.now, s'.files, s'.passes[id])
    {
      var p := s.passes[id];
      CacheAcrossChange(c, s, path, file, p.loaded);
      SoundAcrossChange(c, s, path, file, p.rows, p.start - c.granularity);
    }
  }

  lemma VouchedIsSound(c: Params, now: int, files: map<Path, File>, cache: Cache<Path>, path: Path)
    requires CacheOk(c, now, files, cache) && path in files && cache.Vouches(path, files[path].key, c.window)
    ensures cache.entries[path].digest == c.sha(files[path].content)
  {
  }

  lemma StatKeeps(c: Params, s: System, id: nat, path: Path)
    requires Inv(c, s) && Enabled(c, s, Stat(id, path))
    ensures Inv(c, Apply(c, s, Stat(id, path)))
  {
    if s.passes[id].loaded.Vouches(path, s.files[path].key, c.window) {
      VouchedIsSound(c, s.now, s.files, s.passes[id].loaded, path);
    }
  }

  lemma FinishKeeps(c: Params, s: System, id: nat, digest: Digest)
    requires Inv(c, s) && Enabled(c, s, Finish(id, digest))
    ensures Inv(c, Apply(c, s, Finish(id, digest)))
  {
    var p := s.passes[id];
    var r := p.reading.value;
    assert PassOk(c, s.now, s.files, p);
    assert Sound(c, s.files, p.rows[r.path := Entry(r.key, digest)], p.start - c.granularity);
  }

  lemma StoreKeeps(c: Params, s: System, id: nat, host: i64, written: i64, elapsed: i64)
    requires WideEnough(c) && Inv(c, s) && Enabled(c, s, Store(id, host, written, elapsed))
    ensures Inv(c, Apply(c, s, Store(id, host, written, elapsed)))
  {
    assert PassOk(c, s.now, s.files, s.passes[id]);
  }

  lemma TickKeeps(c: Params, s: System, to: int)
    requires Inv(c, s) && s.now <= to
    ensures Inv(c, s.(now := to))
  {
  }

  /** Every step keeps the trust invariant. */
  lemma StepKeeps(c: Params, s: System, e: Event)
    requires WideEnough(c) && Inv(c, s) && Enabled(c, s, e)
    ensures Inv(c, Apply(c, s, e))
  {
    match e
    case Tick(to) => TickKeeps(c, s, to);
    case Change(path, file) => ChangeKeeps(c, s, path, file);
    case Begin(id) =>
    case Stat(id, path) => StatKeeps(c, s, id, path);
    case Finish(id, digest) => FinishKeeps(c, s, id, digest);
    case Store(id, host, written, elapsed) => StoreKeeps(c, s, id, host, written, elapsed);
    case DropCache =>
  }

  // ---- runs --------------------------------------------------------------------------------

  predicate Legal(c: Params, s: System, run: seq<Event>)
    decreases |run|
  {
    run == [] || (Enabled(c, s, run[0]) && Legal(c, Apply(c, s, run[0]), run[1..]))
  }

  function After(c: Params, s: System, run: seq<Event>): System
    requires Legal(c, s, run)
    decreases |run|
  {
    if run == [] then s else After(c, Apply(c, s, run[0]), run[1..])
  }

  lemma {:induction false} RunKeeps(c: Params, s: System, run: seq<Event>)
    requires WideEnough(c) && Inv(c, s) && Legal(c, s, run)
    ensures Inv(c, After(c, s, run))
    decreases |run|
  {
    if run != [] {
      StepKeeps(c, s, run[0]);
      RunKeeps(c, Apply(c, s, run[0]), run[1..]);
    }
  }

  /** Whenever a running pass would reuse a digest, it is the hash of the file's bytes. */
  ghost predicate ReusesTruly(c: Params, s: System) {
    forall id, p :: id in s.passes && p in s.files && s.passes[id].loaded.Vouches(p, s.files[p].key, c.window) ==>
      s.passes[id].loaded.entries[p].digest == c.sha(s.files[p].content)
  }

  ghost predicate AlwaysReusesTruly(c: Params) {
    forall s, run :: Initial(s) && Legal(c, s, run) ==> ReusesTruly(c, After(c, s, run))
  }

  /** Racy-cache agreement over all runs. */
  lemma WideWindowIsSafe(c: Params)
    requires WideEnough(c)
    ensures AlwaysReusesTruly(c)
  {
    forall s, run | Initial(s) && Legal(c, s, run)
      ensures ReusesTruly(c, After(c, s, run))
    {
      RunKeeps(c, s, run);
      var t := After(c, s, run);
      forall id, p | id in t.passes && p in t.files && t.passes[id].loaded.Vouches(p, t.files[p].key, c.window)
        ensures t.passes[id].loaded.entries[p].digest == c.sha(t.files[p].content)
      {
        assert PassOk(c, t.now, t.files, t.passes[id]);
        VouchedIsSound(c, t.now, t.files, t.passes[id].loaded, p);
      }
    }
  }

  // ---- and when the window is too narrow ---------------------------------------------------

  /** One byte of content, under a key that does not tell it apart. */
  function OneByte(b: byte, stamp: i64): File {
    File([b], StatKey(1, stamp, stamp, 0, 0, 0))
  }

  /** The run that defeats a narrow window: a file written and hashed, then rewritten within
    * the granularity before the pass records a start `slack` late. */
  function RacyRun(c: Params): seq<Event>
    requires c.granularity <= I64_MAX && c.slack <= I64_MAX
  {
    var stamp: i64 := 0 - c.granularity;
    [ Change("f", Some(OneByte(0, stamp))),
      Begin(0), Stat(0, "f"), Finish(0, c.sha([0])),
      Change("f", Some(OneByte(1, stamp))),
      Store(0, c.slack, I64_MAX, 0),
      Begin(1) ]
  }

  const Empty: System := System(0, map[], None, map[])

  /** The state the racy run ends in: pass 1 loaded the digest of `[0]` for a file that
    * holds `[1]`. */
  function RacyEnd(c: Params): System
    requires c.granularity <= I64_MAX && c.slack <= I64_MAX
  {
    var stamp: i64 := 0 - c.granularity;
    var key := StatKey(1, stamp, stamp, 0, 0, 0);
    var cache := Cache(c.slack as i64, map["f" := Entry(key, c.sha([0]))]);
    System(0, map["f" := OneByte(1, stamp)], Some(cache), map[1 := Pass(0, cache, None, map[])])
  }

  lemma {:induction false} RunConcat(c: Params, s: System, a: seq<Event>, b: seq<Event>)
    requires Legal(c, s, a) && Legal(c, After(c, s, a), b)
    ensures Legal(c, s, a + b) && After(c, s, a + b) == After(c, After(c, s, a), b)
    decreases |a|
  {
    if a == [] {
      assert a + b == b;
    } else {
      assert (a + b)[1..] == a[1..] + b;
      RunConcat(c, Apply(c, s, a[0]), a[1..], b);
    }
  }

  lemma OneEvent(c: Params, s: System, e: Event)
    requires Enabled(c, s, e)
    ensures Legal(c, s, [e]) && After(c, s, [e]) == Apply(c, s, e)
  {
    assert [e][1..] == [];
    assert After(c, Apply(c, s, e), []) == Apply(c, s, e);
  }

  /** After the first pass read the file, before it stored. */
  function RacyMiddle(c: Params): System
    requires c.granularity <= I64_MAX
  {
    var a := OneByte(0, 0 - c.granularity);
    System(0, map["f" := a], None, map[0 := Pass(0, NoCache(), None, map["f" := Entry(a.key, c.sha([0]))])])
  }

  lemma RacyRunReads(c: Params)
    requires c.granularity <= I64_MAX && c.slack <= I64_MAX
    ensures Legal(c, Empty, RacyRun(c)[..4]) && After(c, Empty, RacyRun(c)[..4]) == RacyMiddle(c)
  {
    var run := RacyRun(c);
    var a := OneByte(0, 0 - c.granularity);
    var s1 := System(0, map["f" := a], None, map[]);
    var s2 := s1.(passes := map[0 := Pass(0, NoCache(), None, map[])]);
    var s3 := s1.(passes := map[0 := Pass(0, NoCache(), Some(Reading("f", a.key, true)), map[])]);
    assert Apply(c, Empty, run[0]) == s1;
    assert Apply(c, s1, run[1]) == s2;
    assert Apply(c, s2, run[2]) == s3;
    assert Apply(c, s3, run[3]) == RacyMiddle(c);
    OneEvent(c, Empty, run[0]);
    OneEvent(c, s1, run[1]);
    RunConcat(c, Empty, [run[0]], [run[1]]);
    OneEvent(c, s2, run[2]);
    OneEvent(c, s3, run[3]);
    RunConcat(c, s2, [run[2]], [run[3]]);
    RunConcat(c, Empty, [run[0]] + [run[1]], [run[2]] + [run[3]]);
    assert run[..4] == [run[0]] + [run[1]] + ([run[2]] + [run[3]]);
  }

  lemma RacyRunStores(c: Params)
    requires c.granularity <= I64_MAX && c.slack <= I64_MAX
    ensures Legal(c, RacyMiddle(c), RacyRun(c)[4..]) && After(c, RacyMiddle(c), RacyRun(c)[4..]) == RacyEnd(c)
  {
    var run, s4 := RacyRun(c), RacyMiddle(c);
    var s5 := s4.(files := map["f" := OneByte(1, 0 - c.granularity)]);
    var s6 := System(0, s5.files, Some(Cache(c.slack, s4.passes[0].rows)), map[]);
    assert Apply(c, s4, run[4]) == s5;
    assert Apply(c, s5, run[5]) == s6;
    assert Apply(c, s6, run[6]) == RacyEnd(c);
    OneEvent(c, s4, run[4]);
    OneEvent(c, s5, run[5]);
    OneEvent(c, s6, run[6]);
    RunConcat(c, s4, [run[4]], [run[5]]);
    RunConcat(c, s4, [run[4]] + [run[5]], [run[6]]);
    assert run[4..] == [run[4]] + [run[5]] + [run[6]];
  }

  /** The cache agrees with hashing every file in every run exactly when the window covers
    * the timestamp granularity and the slack of the recorded start. */
  lemma SafeExactlyWhenWide(c: Params)
    requires c.sha([0]) != c.sha([1])
    requires c.granularity <= I64_MAX && c.slack <= I64_MAX && c.window >= 0
    ensures AlwaysReusesTruly(c) <==> WideEnough(c)
  {
    if WideEnough(c) {
      WideWindowIsSafe(c);
    } else {
      RacyRunReads(c);
      RacyRunStores(c);
      RunConcat(c, Empty, RacyRun(c)[..4], RacyRun(c)[4..]);
      assert RacyRun(c)[..4] + RacyRun(c)[4..] == RacyRun(c);
      var s := RacyEnd(c);
      assert Initial(Empty);
      assert s.passes[1].loaded.Vouches("f", s.files["f"].key, c.window);
      assert !ReusesTruly(c, s);
    }
  }
}
