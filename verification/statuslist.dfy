/** Git's status listing, and the walk that keeps what the source identity needs of it. */
module StatusList {
  import opened Base
  import opened Framing
  import Utf8

  datatype StatusEntry = StatusEntry(x: byte, y: byte, path: Bytes, orig: Option<Bytes>)

  const SPACE: byte := 0x20
  const QUESTION: byte := 0x3F
  const BANG: byte := 0x21
  const SLASH: byte := 0x2F
  const LETTER_C: byte := 0x43
  const LETTER_R: byte := 0x52

  predicate Renames(x: byte, y: byte) { x == LETTER_R || x == LETTER_C || y == LETTER_R || y == LETTER_C }

  // ---- the record parser ---------------------------------------------------------------

  datatype Pushed = Pushed(pending: Option<StatusEntry>, entry: Option<StatusEntry>)

  /** What one record does: complete a waiting rename, be skipped, wait, or be an entry. */
  function PushOf(pending: Option<StatusEntry>, rec: Bytes): Pushed {
    if pending.Some? then Pushed(None, Some(pending.value.(orig := Some(rec))))
    else if |rec| < 4 || rec[2] != SPACE then Pushed(None, None)
    else
      var e := StatusEntry(rec[0], rec[1], rec[3..], None);
      if Renames(e.x, e.y) then Pushed(Some(e), None) else Pushed(None, Some(e))
  }

  function Listed(e: Option<StatusEntry>): seq<StatusEntry> { if e.Some? then [e.value] else [] }

  /** The entries of a list of records, a rename the output ended inside included. */
  function Parsed(pending: Option<StatusEntry>, recs: seq<Bytes>): seq<StatusEntry>
    decreases |recs|
  {
    if recs == [] then Listed(pending)
    else
      var p := PushOf(pending, recs[0]);
      Listed(p.entry) + Parsed(p.pending, recs[1..])
  }

  class PorcelainParser {
    var pending: Option<StatusEntry>

    constructor ()
      ensures pending.None?
    {
      pending := None;
    }

    method Push(rec: Bytes) returns (e: Option<StatusEntry>)
      modifies this
      ensures Pushed(pending, e) == PushOf(old(pending), rec)
    {
      if pending.Some? {
        var was := pending.value;
        pending := None;
        return Some(was.(orig := Some(rec)));
      }
      if |rec| < 4 || rec[2] != SPACE { return None; }
      var one := StatusEntry(rec[0], rec[1], rec[3..], None);
      if one.x == LETTER_R || one.x == LETTER_C || one.y == LETTER_R || one.y == LETTER_C {
        pending := Some(one);
        return None;
      }
      return Some(one);
    }

    method Finish() returns (e: Option<StatusEntry>)
      modifies this
      ensures e == old(pending) && pending.None?
    {
      e := pending;
      pending := None;
    }
  }

  /** The NUL-separated records of an output; what follows the last NUL is one too. */
  function Records(out: Bytes): (r: seq<Bytes>)
    ensures r != []
  {
    if out == [] then [[]]
    else
      var rest := Records(out[1..]);
      if out[0] == 0 then [[]] + rest else [[out[0]] + rest[0]] + rest[1..]
  }

  /** Parse an output whole. */
  method ParsePorcelain(out: Bytes) returns (entries: seq<StatusEntry>)
    ensures entries == Parsed(None, Records(out))
  {
    hide PushOf, Records;
    var recs := Records(out);
    var parser := new PorcelainParser();
    entries := [];
    assert recs[0..] == recs;
    for k := 0 to |recs|
      invariant entries + Parsed(parser.pending, recs[k..]) == Parsed(None, recs)
    {
      assert recs[k..][0] == recs[k] && recs[k..][1..] == recs[k + 1..];
      var e := parser.Push(recs[k]);
      assert entries + (Listed(e) + Parsed(parser.pending, recs[k + 1..]))
        == (entries + Listed(e)) + Parsed(parser.pending, recs[k + 1..]);
      if e.Some? { entries := entries + [e.value]; } else { assert entries + [] == entries; }
    }
    var last := parser.Finish();
    assert recs[|recs|..] == [];
    if last.Some? { entries := entries + [last.value]; } else { assert entries + [] == entries; }
  }

  // ---- printing, and its inverse -----------------------------------------------------------

  predicate NulFree(b: Bytes) { 0 !in b }

  /** An entry as Git prints one: a path, and an origin exactly on renames and copies. */
  predicate Printable(e: StatusEntry) {
    && e.x != 0 && e.y != 0 && e.path != [] && NulFree(e.path)
    && (e.orig.Some? <==> Renames(e.x, e.y))
    && (e.orig.Some? ==> NulFree(e.orig.value))
  }

  function Line(e: StatusEntry): Bytes { [e.x, e.y, SPACE] + e.path }

  function Printed(es: seq<StatusEntry>): Bytes {
    if es == [] then []
    else Line(es[0]) + [0] + ((if es[0].orig.Some? then es[0].orig.value + [0] else []) + Printed(es[1..]))
  }

  lemma {:induction false} RecordCut(rec: Bytes, rest: Bytes)
    requires NulFree(rec)
    ensures Records(rec + [0] + rest) == [rec] + Records(rest)
    decreases |rec|
  {
    var out := rec + [0] + rest;
    if rec == [] {
      assert out[1..] == rest;
    } else {
      RecordCut(rec[1..], rest);
      assert out[1..] == rec[1..] + [0] + rest;
      assert [rec[0]] + rec[1..] == rec;
    }
  }

  lemma LineParses(e: StatusEntry)
    requires Printable(e)
    ensures PushOf(None, Line(e)) ==
      var bare := e.(orig := None);
      if e.orig.Some? then Pushed(Some(bare), None) else Pushed(None, Some(bare))
  {
    assert Line(e)[3..] == e.path;
  }

  lemma ParsedCons(pending: Option<StatusEntry>, rec: Bytes, recs: seq<Bytes>)
    ensures Parsed(pending, [rec] + recs)
      == Listed(PushOf(pending, rec).entry) + Parsed(PushOf(pending, rec).pending, recs)
  {
    assert ([rec] + recs)[1..] == recs;
  }

  /** Parsing what Git prints gives the entries back, paths byte for byte, each rename with its
    * origin. */
  lemma {:induction false} ParseInvertsPrint(es: seq<StatusEntry>)
    requires forall k :: 0 <= k < |es| ==> Printable(es[k])
    ensures Parsed(None, Records(Printed(es))) == es
    decreases |es|
  {
    hide Records, PushOf, Parsed, Line;
    if es == [] {
      NothingPrinted();
    } else {
      var e, rest := es[0], Printed(es[1..]);
      ParseInvertsPrint(es[1..]);
      LineIsRecord(e);
      LineParses(e);
      assert es == [e] + es[1..];
      if e.orig.None? {
        RecordCut(Line(e), rest);
        assert [] + rest == rest;
        ParsedCons(None, Line(e), Records(rest));
      } else {
        var o := e.orig.value;
        RecordCut(Line(e), o + [0] + rest);
        RecordCut(o, rest);
        ParsedCons(None, Line(e), [o] + Records(rest));
        ParsedCons(Some(e.(orig := None)), o, Records(rest));
        OriginParses(e.(orig := None), o);
        assert e.(orig := None).(orig := Some(o)) == e;
      }
    }
  }

  lemma OriginParses(e: StatusEntry, o: Bytes)
    ensures PushOf(Some(e), o) == Pushed(None, Some(e.(orig := Some(o))))
  {
  }

  lemma NothingPrinted()
    ensures Parsed(None, Records(Printed([]))) == []
  {
    assert Records([]) == [[]];
  }

  lemma LineIsRecord(e: StatusEntry)
    requires Printable(e)
    ensures NulFree(Line(e))
  {
  }

  // ---- what the identity keeps ----------------------------------------------------------------

  const MAX_IDENTITY_UNTRACKED: nat := 10_000
  const MAX_IGNORED_DIRS: nat := 8192
  const MAX_IGNORED_DIR_BYTES: nat := 262144

  predicate Ignored(e: StatusEntry) { e.x == BANG && e.y == BANG }
  predicate Untracked(e: StatusEntry) { e.x == QUESTION && e.y == QUESTION }
  predicate Tracked(e: StatusEntry) { !Ignored(e) && !Untracked(e) }
  predicate IgnoredDir(e: StatusEntry) { Ignored(e) && e.path != [] && e.path[|e.path| - 1] == SLASH }

  /** The entries a predicate picks, in order. */
  function Where(es: seq<StatusEntry>, f: StatusEntry -> bool): seq<StatusEntry> {
    if es == [] then [] else Where(es[..|es| - 1], f) + if f(es[|es| - 1]) then [es[|es| - 1]] else []
  }

  lemma WhereSnoc(es: seq<StatusEntry>, e: StatusEntry, f: StatusEntry -> bool)
    ensures Where(es + [e], f) == Where(es, f) + if f(e) then [e] else []
  {
    assert (es + [e])[..|es|] == es;
  }

  function First(es: seq<StatusEntry>, n: nat): seq<StatusEntry> { if |es| <= n then es else es[..n] }
  function Past(es: seq<StatusEntry>, n: nat): seq<StatusEntry> { if |es| <= n then [] else es[n..] }

  function Paths(es: seq<StatusEntry>): (r: seq<Bytes>)
    ensures |r| == |es|
  {
    seq(|es|, i requires 0 <= i < |es| => es[i].path)
  }

  lemma PathsSnoc(es: seq<StatusEntry>, e: StatusEntry)
    ensures Paths(es + [e]) == Paths(es) + [e.path]
  {
  }

  function PathBytes(es: seq<StatusEntry>): nat {
    if es == [] then 0 else PathBytes(es[..|es| - 1]) + |es[|es| - 1].path|
  }

  /** The ignored directories can all be reported. */
  predicate Reportable(dirs: seq<StatusEntry>) {
    |dirs| <= MAX_IGNORED_DIRS && PathBytes(dirs) <= MAX_IGNORED_DIR_BYTES
  }

  /** The walk over a listing, entry by entry. */
  class StatusWalk {
    var parser: PorcelainParser
    var entries: seq<StatusEntry>
    var untrackedKept: nat
    var beyond: nat
    var beyondPaths: Bytes
    var listIgnored: bool
    var ignored: seq<StatusEntry>
    var ignoredBytes: nat
    var ignoredOverflow: bool
    /** The entries seen so far. */
    ghost var seen: seq<StatusEntry>

    /** Every tracked entry is kept, and the first untracked ones; the others are folded, in
      * order, into the digest of their paths. */
    ghost predicate KeepsEntries()
      reads this
    {
      && Where(entries, Tracked) == Where(seen, Tracked)
      && Where(entries, Untracked) == First(Where(seen, Untracked), MAX_IDENTITY_UNTRACKED)
      && Where(entries, Ignored) == []
      && untrackedKept == |Where(entries, Untracked)|
      && beyond == |Past(Where(seen, Untracked), MAX_IDENTITY_UNTRACKED)|
      && beyondPaths == Framed(Paths(Past(Where(seen, Untracked), MAX_IDENTITY_UNTRACKED)))
    }

    /** The ignored directories are held exactly while they can all be reported. */
    ghost predicate KeepsIgnored()
      reads this
    {
      var dirs := if listIgnored then Where(seen, IgnoredDir) else [];
      && (ignoredOverflow <==> !Reportable(dirs))
      && (!ignoredOverflow ==> ignored == dirs && ignoredBytes == PathBytes(dirs))
    }

    ghost predicate Valid()
      reads this
    {
      KeepsEntries() && KeepsIgnored()
    }

    constructor (list: bool)
      ensures Valid() && seen == [] && listIgnored == list && parser.pending.None? && fresh(parser)
    {
      parser := new PorcelainParser();
      entries, untrackedKept, beyond, beyondPaths := [], 0, 0, [];
      listIgnored, ignored, ignoredBytes, ignoredOverflow := list, [], 0, false;
      seen := [];
    }

    /** Take one entry. */
    method Entry(e: StatusEntry)
      requires Valid()
      modifies this
      ensures Valid() && seen == old(seen) + [e] && listIgnored == old(listIgnored) && parser == old(parser)
    {
      hide Where, Framed, Reportable, PathBytes;
      ghost var us := Where(seen, Untracked);
      WhereSnoc(seen, e, Tracked);
      WhereSnoc(seen, e, Untracked);
      WhereSnoc(entries, e, Tracked);
      WhereSnoc(entries, e, Untracked);
      WhereSnoc(entries, e, Ignored);
      AddNothing(Where(seen, Tracked), us, Where(entries, Tracked), Where(entries, Ignored), Where(entries, Untracked));
      if Ignored(e) {
        IgnoredDirEntry(e);
        return;
      }
      WhereSnoc(seen, e, IgnoredDir);
      assert Where(seen, IgnoredDir) + [] == Where(seen, IgnoredDir);
      seen := seen + [e];
      if Untracked(e) {
        if untrackedKept >= MAX_IDENTITY_UNTRACKED {
          PastSnoc(us, e);
          PathsSnoc(Past(us, MAX_IDENTITY_UNTRACKED), e);
          FramedSnoc(Paths(Past(us, MAX_IDENTITY_UNTRACKED)), e.path);
          beyond := beyond + 1;
          beyondPaths := beyondPaths + Field(e.path);
        } else {
          untrackedKept := untrackedKept + 1;
          entries := entries + [e];
        }
      } else {
        entries := entries + [e];
      }
    }

    /** Hold an ignored directory while the listing stays within its bounds. */
    method IgnoredDirEntry(e: StatusEntry)
      requires Valid() && Ignored(e)
      modifies this`ignored, this`ignoredBytes, this`ignoredOverflow, this`seen
      ensures KeepsIgnored() && seen == old(seen) + [e]
    {
      hide Where, Framed, PathBytes, KeepsEntries;
      WhereSnoc(seen, e, IgnoredDir);
      ghost var dirs := Where(seen, IgnoredDir);
      assert dirs + [] == dirs;
      ReportableSnoc(dirs, e);
      seen := seen + [e];
      if !listIgnored || ignoredOverflow || e.path == [] || e.path[|e.path| - 1] != SLASH { return; }
      ignoredBytes := ignoredBytes + |e.path|;
      ignoredOverflow := |ignored| >= MAX_IGNORED_DIRS || ignoredBytes > MAX_IGNORED_DIR_BYTES;
      if !ignoredOverflow { ignored := ignored + [e]; }
    }

    /** Take one record of the porcelain output. */
    method Record(rec: Bytes)
      requires Valid()
      modifies this, parser
      ensures Valid() && parser == old(parser) && listIgnored == old(listIgnored)
      ensures var p := PushOf(old(parser.pending), rec);
        parser.pending == p.pending && seen == old(seen) + Listed(p.entry)
    {
      hide PushOf, Where, Framed;
      var e := parser.Push(rec);
      if e.Some? { Entry(e.value); } else { assert seen + [] == seen; }
    }

    method Finish()
      requires Valid()
      modifies this, parser
      ensures Valid() && parser == old(parser) && listIgnored == old(listIgnored)
      ensures parser.pending.None? && seen == old(seen) + Listed(old(parser.pending))
    {
      hide Where, Framed;
      var e := parser.Finish();
      if e.Some? { Entry(e.value); } else { assert seen + [] == seen; }
    }

    /** The ignored directories' names: reported exactly when they are within the bounds and
      * every one is UTF-8. */
    method IgnoredDirs() returns (r: Option<seq<Bytes>>)
      requires Valid() && listIgnored
      ensures var dirs := Where(seen, IgnoredDir);
        r == if Reportable(dirs) && (forall k :: 0 <= k < |dirs| ==> Utf8.Valid(dirs[k].path)) then Some(Paths(dirs))
          else None
    {
      hide Where, Framed, Utf8.Valid, PathBytes;
      if ignoredOverflow { return None; }
      WhereAll(seen, IgnoredDir);
      r := IgnoredListing(ignored);
    }
  }

  lemma {:induction false} WhereAll(es: seq<StatusEntry>, f: StatusEntry -> bool)
    ensures forall k :: 0 <= k < |Where(es, f)| ==> f(Where(es, f)[k])
    decreases |es|
  {
    if es != [] { WhereAll(es[..|es| - 1], f); }
  }

  lemma AddNothing(
    a: seq<StatusEntry>, b: seq<StatusEntry>, c: seq<StatusEntry>, d: seq<StatusEntry>, e: seq<StatusEntry>)
    ensures a + [] == a && b + [] == b && c + [] == c && d + [] == d && e + [] == e
  {
  }

  lemma PastSnoc(us: seq<StatusEntry>, e: StatusEntry)
    requires |us| >= MAX_IDENTITY_UNTRACKED
    ensures Past(us + [e], MAX_IDENTITY_UNTRACKED) == Past(us, MAX_IDENTITY_UNTRACKED) + [e]
    ensures First(us + [e], MAX_IDENTITY_UNTRACKED) == First(us, MAX_IDENTITY_UNTRACKED)
  {
  }

  lemma ReportableSnoc(dirs: seq<StatusEntry>, e: StatusEntry)
    ensures PathBytes(dirs + [e]) == PathBytes(dirs) + |e.path|
    ensures Reportable(dirs + [e]) ==> Reportable(dirs)
  {
    assert (dirs + [e])[..|dirs|] == dirs;
  }

  lemma {:induction false} PathBytesGrow(es: seq<StatusEntry>, k: nat)
    requires k <= |es|
    ensures PathBytes(es[..k]) <= PathBytes(es)
    decreases |es|
  {
    if k == |es| {
      assert es[..k] == es;
    } else {
      PathBytesGrow(es[..|es| - 1], k);
      assert es[..|es| - 1][..k] == es[..k];
    }
  }

  /** The whole-directory ignored entries of a listing, or nothing when they cannot all be
    * reported. */
  method IgnoredListing(es: seq<StatusEntry>) returns (r: Option<seq<Bytes>>)
    requires forall k :: 0 <= k < |es| ==> IgnoredDir(es[k])
    ensures r == if Reportable(es) && (forall k :: 0 <= k < |es| ==> Utf8.Valid(es[k].path)) then Some(Paths(es))
      else None
  {
    hide Utf8.Valid, PathBytes;
    var dirs: seq<Bytes> := [];
    var bytes := 0;
    NoBytes(es);
    for k := 0 to |es|
      invariant dirs == Paths(es[..k]) && bytes == PathBytes(es[..k]) && Reportable(es[..k])
      invariant forall j :: 0 <= j < k ==> Utf8.Valid(es[j].path)
    {
      var e := es[k];
      if !Utf8.Valid(e.path) { return None; }
      assert es[..k + 1] == es[..k] + [e];
      ReportableSnoc(es[..k], e);
      PathsSnoc(es[..k], e);
      bytes := bytes + |e.path|;
      if |dirs| >= MAX_IGNORED_DIRS || bytes > MAX_IGNORED_DIR_BYTES {
        PathBytesGrow(es, k + 1);
        return None;
      }
      dirs := dirs + [e.path];
    }
    assert es[..|es|] == es;
    return Some(dirs);
  }

  lemma NoBytes(es: seq<StatusEntry>) ensures PathBytes(es[..0]) == 0 {}

  // ---- a whole listing -------------------------------------------------------------------------

  /** Walk a whole porcelain output. */
  method WalkRecords(recs: seq<Bytes>, list: bool) returns (walk: StatusWalk)
    ensures fresh(walk) && walk.Valid() && walk.listIgnored == list
    ensures walk.seen == Parsed(None, recs)
  {
    hide PushOf, Where, Framed;
    walk := new StatusWalk(list);
    assert recs[0..] == recs && walk.seen + Parsed(None, recs) == Parsed(None, recs);
    for k := 0 to |recs|
      invariant fresh(walk) && fresh(walk.parser) && walk.Valid() && walk.listIgnored == list
      invariant walk.seen + Parsed(walk.parser.pending, recs[k..]) == Parsed(None, recs)
    {
      hide PushOf, Where, Framed, StatusWalk.Valid;
      assert recs[k..][0] == recs[k] && recs[k..][1..] == recs[k + 1..];
      ghost var before, p := walk.seen, PushOf(walk.parser.pending, recs[k]);
      walk.Record(recs[k]);
      assert before + (Listed(p.entry) + Parsed(p.pending, recs[k + 1..]))
        == (before + Listed(p.entry)) + Parsed(p.pending, recs[k + 1..]);
    }
    assert recs[|recs|..] == [];
    walk.Finish();
  }
}
