/** The source identity: ordered entries, their content within one budget, and the key. */
module Identity {
  import opened Base
  import opened Framing
  import opened StatusList
  import opened SourceKey
  import CacheCodec
  import HashPass
  import StatCache

  // The tree is read through `World`: what the hashing pass returned, what the opener and the
  // directory classifier find at a path, and its metadata.

  const MAX_IDENTITY_BYTES: nat := 64 * 1024 * 1024
  const MAX_REPO_FILE_BYTES: nat := 8 * 1024 * 1024

  // ---- the order of the entries ------------------------------------------------------------

  /** Byte strings in dictionary order. */
  predicate Lex(a: Bytes, b: Bytes) {
    a == [] || (b != [] && (a[0] < b[0] || (a[0] == b[0] && Lex(a[1..], b[1..]))))
  }

  lemma {:induction false} LexOrder(a: Bytes, b: Bytes, c: Bytes)
    ensures Lex(a, b) || Lex(b, a)
    ensures Lex(a, b) && Lex(b, a) ==> a == b
    ensures Lex(a, b) && Lex(b, c) ==> Lex(a, c)
    decreases |a|
  {
    if a != [] {
      if b == [] {
      } else {
        LexOrder(a[1..], b[1..], if c == [] then [] else c[1..]);
        if a[0] == b[0] && a[1..] == b[1..] { assert a == [a[0]] + a[1..] && b == [b[0]] + b[1..]; }
      }
    }
  }

  /** Tracked entries before untracked ones, then by path. */
  predicate Before(a: StatusEntry, b: StatusEntry) {
    if Untracked(a) == Untracked(b) then Lex(a.path, b.path) else Untracked(b)
  }

  lemma BeforeOrder(a: StatusEntry, b: StatusEntry, c: StatusEntry)
    ensures Before(a, b) || Before(b, a)
    ensures Before(a, b) && Before(b, c) ==> Before(a, c)
    ensures Before(a, b) && Before(b, a) ==> Untracked(a) == Untracked(b) && a.path == b.path
  {
    hide Lex;
    LexOrder(a.path, b.path, c.path);
  }

  ghost predicate Ordered(es: seq<StatusEntry>) {
    forall i, j :: 0 <= i < j < |es| ==> Before(es[i], es[j])
  }

  /** No two entries share their path and their kind. */
  ghost predicate DistinctEntries(es: seq<StatusEntry>) {
    forall i, j :: 0 <= i < j < |es| ==> es[i].path != es[j].path || Untracked(es[i]) != Untracked(es[j])
  }

  /** `e` after every entry it does not come strictly before. */
  function Insert(es: seq<StatusEntry>, e: StatusEntry): seq<StatusEntry> {
    if es == [] || Before(es[|es| - 1], e) then es + [e] else Insert(es[..|es| - 1], e) + [es[|es| - 1]]
  }

  /** A stable sort. */
  function Sort(es: seq<StatusEntry>): seq<StatusEntry> {
    if es == [] then [] else Insert(Sort(es[..|es| - 1]), es[|es| - 1])
  }

  lemma {:induction false} InsertKeeps(es: seq<StatusEntry>, e: StatusEntry)
    requires Ordered(es)
    ensures Ordered(Insert(es, e)) && multiset(Insert(es, e)) == multiset(es) + multiset{e}
    decreases |es|
  {
    hide Before;
    if es == [] {
    } else {
      var init, last := es[..|es| - 1], es[|es| - 1];
      assert es == init + [last];
      if Before(last, e) {
        forall i | 0 <= i < |es| ensures Before(es[i], e) { BeforeOrder(es[i], last, e); }
      } else {
        InsertKeeps(init, e);
        BeforeOrder(last, e, e);
        var r := Insert(init, e);
        forall i | 0 <= i < |r| ensures Before(r[i], last) {
          assert r[i] in multiset(r);
          assert r[i] in multiset(init) || r[i] == e;
          if r[i] != e { assert r[i] in init; }
        }
      }
    }
  }

  lemma {:induction false} SortSorts(es: seq<StatusEntry>)
    ensures Ordered(Sort(es)) && multiset(Sort(es)) == multiset(es)
    decreases |es|
  {
    hide Before, Insert;
    if es != [] {
      SortSorts(es[..|es| - 1]);
      InsertKeeps(Sort(es[..|es| - 1]), es[|es| - 1]);
      assert es == es[..|es| - 1] + [es[|es| - 1]];
    }
  }

  lemma Among(a: seq<StatusEntry>, b: seq<StatusEntry>)
    requires multiset(a) == multiset(b)
    ensures |a| == |b| && forall e :: e in a <==> e in b
  {
    assert |multiset(a)| == |a| && |multiset(b)| == |b|;
    assert forall e :: e in a <==> e in multiset(a);
    assert forall e :: e in b <==> e in multiset(b);
  }

  /** The order leaves one arrangement of distinct entries. */
  lemma {:induction false} OrderedIsUnique(a: seq<StatusEntry>, b: seq<StatusEntry>)
    requires Ordered(a) && Ordered(b) && multiset(a) == multiset(b) && DistinctEntries(a)
    ensures a == b
    decreases |a|
  {
    hide Before;
    Among(a, b);
    if a != [] {
      assert b[0] in b && a[0] in a;
      var i :| 0 <= i < |a| && a[i] == b[0];
      var j :| 0 <= j < |b| && b[j] == a[0];
      FirstsAgree(a, b, i, j);
      RestSame(a, b);
      OrderedIsUnique(a[1..], b[1..]);
      assert a == [a[0]] + a[1..] && b == [b[0]] + b[1..];
    }
  }

  lemma RestSame(a: seq<StatusEntry>, b: seq<StatusEntry>)
    requires a != [] && b != [] && a[0] == b[0] && multiset(a) == multiset(b)
    ensures multiset(a[1..]) == multiset(b[1..])
  {
    assert a == [a[0]] + a[1..] && b == [b[0]] + b[1..];
    assert multiset(a[1..]) == multiset(a) - multiset{a[0]} && multiset(b[1..]) == multiset(b) - multiset{b[0]};
  }

  lemma FirstsAgree(a: seq<StatusEntry>, b: seq<StatusEntry>, i: nat, j: nat)
    requires Ordered(a) && Ordered(b) && DistinctEntries(a)
    requires i < |a| && j < |b| && a[i] == b[0] && b[j] == a[0]
    ensures a[0] == b[0]
  {
    hide Before;
    if i > 0 && j > 0 { BeforeOrder(a[0], a[i], a[0]); }
  }

  /** The order in which a listing names its entries leaves no trace. */
  lemma SortIgnoresOrder(es: seq<StatusEntry>, fs: seq<StatusEntry>)
    requires multiset(es) == multiset(fs) && DistinctEntries(Sort(es))
    ensures Sort(es) == Sort(fs)
  {
    hide Before, Sort;
    SortSorts(es);
    SortSorts(fs);
    OrderedIsUnique(Sort(es), Sort(fs));
  }

  /** The kept entries and the hidden ones whose path is not among them, in order. */
  function Arranged(kept: seq<StatusEntry>, hidden: seq<StatusEntry>): seq<StatusEntry> {
    var listed := set e | e in kept :: e.path;
    Sort(kept + Where(hidden, (e: StatusEntry) => e.path !in listed))
  }

  // ---- the content of an entry ---------------------------------------------------------------

  datatype Failure = Oversized(size: nat) | SymlinkInPath | NotRegular | Missing | Unreadable

  datatype Kind = Submodule | UnregisteredGitlink | NestedUntracked

  datatype Content =
    | Sha256(hex: Bytes)
    | Deleted
    | Symlink(hex: Bytes)
    | NestedRepo(kind: Kind, token: Bytes)
    | Incomplete(failure: Failure)
    | Unhashed

  /** What the no-follow opener finds: a regular file, or why there is none. */
  datatype Source = Regular(bytes: Bytes) | Closed(why: Failure)

  /** A path that is a directory: without a `.git`, with one that cannot be read, or a nested
    * repository. */
  datatype Directory = NotDirectory | NoGit | DeadGit | Nested(token: Bytes)

  datatype World = World(
    hashed: Bytes -> Option<Bytes>,
    directory: Bytes -> Directory,
    registered: Bytes -> bool,
    source: Bytes -> Source,
    link: Bytes -> Option<Bytes>,
    metadata: Bytes -> Option<Bytes>,
    hex: Bytes -> Bytes)

  function Trimmed(path: Bytes): Bytes {
    if path != [] && path[|path| - 1] == SLASH then path[..|path| - 1] else path
  }

  function DirectoryContent(w: World, e: StatusEntry): Option<Content> {
    var rel := Trimmed(e.path);
    match w.directory(rel)
    case NotDirectory => None
    case NoGit => Some(Incomplete(NotRegular))
    case DeadGit => Some(Incomplete(Unreadable))
    case Nested(token) =>
      Some(NestedRepo(if Untracked(e) then NestedUntracked else if w.registered(rel) then Submodule
        else UnregisteredGitlink, token))
  }

  /** The bytes an entry's content is read from, if it is read. */
  function BytesRead(w: World, e: StatusEntry, budget: nat): Option<Bytes> {
    if w.hashed(e.path).Some? || DirectoryContent(w, e).Some? || budget == 0 then None
    else match w.source(e.path)
      case Regular(bytes) => if |bytes| <= Min(MAX_REPO_FILE_BYTES, budget) then Some(bytes) else None
      case Closed(_) => None
  }

  function ContentAt(w: World, e: StatusEntry, budget: nat): Content {
    if w.hashed(e.path).Some? then Sha256(w.hashed(e.path).value)
    else if DirectoryContent(w, e).Some? then DirectoryContent(w, e).value
    else if budget == 0 then Unhashed
    else match w.source(e.path)
      case Regular(bytes) =>
        if |bytes| <= Min(MAX_REPO_FILE_BYTES, budget) then Sha256(w.hex(bytes))
        else if |bytes| <= MAX_REPO_FILE_BYTES then Unhashed else Incomplete(Oversized(|bytes|))
      case Closed(Missing) => Deleted
      case Closed(SymlinkInPath) =>
        if w.link(e.path).Some? then Symlink(w.hex(w.link(e.path).value)) else Incomplete(Unreadable)
      case Closed(Oversized(n)) => if n <= MAX_REPO_FILE_BYTES then Unhashed else Incomplete(Oversized(n))
      case Closed(f) => Incomplete(f)
  }

  /** The budget left after some entries. */
  function BudgetAfter(w: World, es: seq<StatusEntry>, budget: nat): (left: nat)
    ensures left <= budget
  {
    if es == [] then budget
    else
      var left := BudgetAfter(w, es[..|es| - 1], budget);
      var read := BytesRead(w, es[|es| - 1], left);
      if read.Some? then left - |read.value| else left
  }

  /** How many of the entries are read. */
  function FilesRead(w: World, es: seq<StatusEntry>, budget: nat): nat {
    if es == [] then 0
    else
      var read := BytesRead(w, es[|es| - 1], BudgetAfter(w, es[..|es| - 1], budget));
      FilesRead(w, es[..|es| - 1], budget) + if read.Some? then 1 else 0
  }

  /** The budget only hides: a content known under some budget is the content under every larger
    * one, and what a larger budget adds was unhashed under the smaller. */
  lemma BudgetOnlyHides(w: World, e: StatusEntry, less: nat, more: nat)
    requires less <= more
    ensures Identified(ContentAt(w, e, less)) ==> ContentAt(w, e, more) == ContentAt(w, e, less)
    ensures ContentAt(w, e, more) != ContentAt(w, e, less) ==> ContentAt(w, e, less) == Unhashed
  {
  }

  function Contents(w: World, es: seq<StatusEntry>, budget: nat): (r: seq<Content>)
    ensures |r| == |es|
  {
    if es == [] then []
    else Contents(w, es[..|es| - 1], budget) + [ContentAt(w, es[|es| - 1], BudgetAfter(w, es[..|es| - 1], budget))]
  }

  /** A tree's contents under two budgets never disagree: an entry known under both has one
    * content, and one known under one only was left unhashed under the other. */
  lemma {:induction false} BudgetsAgree(w: World, es: seq<StatusEntry>, a: nat, b: nat, k: nat)
    requires k < |es|
    ensures var x, y := Contents(w, es, a)[k], Contents(w, es, b)[k];
      x == y || x == Unhashed || y == Unhashed
    decreases |es|
  {
    hide ContentAt, BytesRead;
    var init := es[..|es| - 1];
    if k < |init| {
      BudgetsAgree(w, init, a, b, k);
    } else {
      var x, y := BudgetAfter(w, init, a), BudgetAfter(w, init, b);
      BudgetOnlyHides(w, es[k], Min(x, y), Max(x, y));
    }
  }

  // ---- its token --------------------------------------------------------------------------------

  datatype Name = Hashed | Linked | Of(kind: Kind) | Because(failure: Failure) | OverBudget

  const COLON: byte := 0x3A

  function NameText(n: Name): Bytes {
    match n
    case Hashed => Ascii("sha256")
    case Linked => Ascii("symlink")
    case Of(Submodule) => Ascii("submodule")
    case Of(UnregisteredGitlink) => Ascii("gitlink_unregistered")
    case Of(NestedUntracked) => Ascii("nested_repo")
    case Because(Oversized(_)) => Ascii("oversized")
    case Because(SymlinkInPath) => Ascii("symlink")
    case Because(NotRegular) => Ascii("not_regular")
    case Because(Missing) => Ascii("missing")
    case Because(Unreadable) => Ascii("unreadable")
    case OverBudget => Ascii("identity_budget")
  }

  const DELETED: Bytes := Ascii("deleted")
  const NO_METADATA: Bytes := Ascii("no-metadata")

  function NameOf(c: Content): Name
    requires !c.Deleted?
  {
    match c
    case Sha256(_) => Hashed
    case Symlink(_) => Linked
    case NestedRepo(kind, _) => Of(kind)
    case Incomplete(f) => Because(f)
    case Unhashed => OverBudget
  }

  function DetailOf(w: World, path: Bytes, c: Content): Bytes
    requires !c.Deleted?
  {
    match c
    case Sha256(hex) => hex
    case Symlink(hex) => hex
    case NestedRepo(_, token) => token
    case _ => if w.metadata(path).Some? then w.metadata(path).value else NO_METADATA
  }

  function Token(w: World, path: Bytes, c: Content): Bytes {
    if c.Deleted? then DELETED else NameText(NameOf(c)) + ([COLON] + DetailOf(w, path, c))
  }

  /** The content is known; the other kinds are named by metadata only. */
  predicate Identified(c: Content) { c.Sha256? || c.Deleted? || c.Symlink? || c.NestedRepo? }

  /** What the classification can return: a link in the path is read as a link, or unreadable. */
  predicate Arises(c: Content) { c != Incomplete(SymlinkInPath) }

  lemma ContentArises(w: World, e: StatusEntry, budget: nat)
    ensures Arises(ContentAt(w, e, budget))
  {
  }

  lemma ColonSplits(a: Bytes, b: Bytes, x: Bytes, y: Bytes)
    requires COLON !in a && COLON !in b && a + ([COLON] + x) == b + ([COLON] + y)
    ensures a == b && x == y
  {
    var s, t := a + ([COLON] + x), b + ([COLON] + y);
    assert s[|a|] == COLON && t[|b|] == COLON;
    assert a == s[..|a|] && b == t[..|b|] && x == s[|a| + 1..] && y == t[|b| + 1..];
  }

  lemma AsciiHasNo(s: string, c: char)
    requires c !in s && c as int < 256 && forall k :: 0 <= k < |s| ==> s[k] as int < 256
    ensures c as int !in Ascii(s)
  {
  }

  lemma NameHasNoColon(n: Name)
    ensures COLON !in NameText(n)
  {
    hide Ascii;
    AsciiHasNo("sha256", ':');
    AsciiHasNo("symlink", ':');
    AsciiHasNo("submodule", ':');
    AsciiHasNo("oversized", ':');
    AsciiHasNo("missing", ':');
    LongNames();
  }

  lemma LongNames()
    ensures COLON !in Ascii("gitlink_unregistered") && COLON !in Ascii("nested_repo") && COLON !in Ascii("not_regular")
    ensures COLON !in Ascii("unreadable") && COLON !in Ascii("identity_budget")
  {
    hide Ascii;
    AsciiHasNo("gitlink_unregistered", ':');
    AsciiHasNo("nested_repo", ':');
    AsciiHasNo("not_regular", ':');
    AsciiHasNo("unreadable", ':');
    AsciiHasNo("identity_budget", ':');
  }

  /** The first letters that tell names of one length apart. */
  lemma NamesDiffer(a: Content, b: Content)
    requires Identified(a) && !a.Deleted? && !b.Deleted? && Arises(b) && NameText(NameOf(a)) == NameText(NameOf(b))
    ensures NameOf(a) == NameOf(b)
  {
    assert Ascii("submodule")[0] == 0x73 && Ascii("oversized")[0] == 0x6F;
    assert Ascii("nested_repo")[1] == 0x65 && Ascii("not_regular")[1] == 0x6F;
    assert Ascii("symlink")[0] == 0x73 && Ascii("missing")[0] == 0x6D;
  }

  lemma DeletedHasNoColon()
    ensures COLON !in DELETED
  {
    AsciiHasNo("deleted", ':');
  }

  /** A token of known content is the token of nothing else. */
  lemma TokenTells(w: World, p: Bytes, a: Content, v: World, q: Bytes, b: Content)
    requires Identified(a) && Arises(b) && Token(w, p, a) == Token(v, q, b)
    ensures a == b
  {
    hide NameText;
    DeletedHasNoColon();
    if !a.Deleted? { assert Token(w, p, a)[|NameText(NameOf(a))|] == COLON; }
    if !b.Deleted? { assert Token(v, q, b)[|NameText(NameOf(b))|] == COLON; }
    if !a.Deleted? && !b.Deleted? {
      NameHasNoColon(NameOf(a));
      NameHasNoColon(NameOf(b));
      ColonSplits(NameText(NameOf(a)), NameText(NameOf(b)), DetailOf(w, p, a), DetailOf(v, q, b));
      NamesDiffer(a, b);
    }
  }

  // ---- the identity -------------------------------------------------------------------------------

  function RowsOf(w: World, es: seq<StatusEntry>, cs: seq<Content>): (rows: seq<Row>)
    requires |cs| == |es|
    ensures |rows| == |es|
  {
    seq(|es|, i requires 0 <= i < |es| => Row(es[i], Token(w, es[i].path, cs[i])))
  }

  lemma RowsOfSnoc(w: World, es: seq<StatusEntry>, cs: seq<Content>, e: StatusEntry, c: Content)
    requires |cs| == |es|
    ensures RowsOf(w, es + [e], cs + [c]) == RowsOf(w, es, cs) + [Row(e, Token(w, e.path, c))]
  {
    hide Token;
  }

  predicate HiddenEntry(e: StatusEntry) { !Untracked(e) && e.x == BANG }

  datatype Limitation =
    | GitUnavailable
    | StatusUnread
    | IndexFlagsFailed
    | UntrackedWalkIncomplete
    | EntryUnread(path: Bytes, failure: Failure)
    | EntryOverBudget(path: Bytes)
    | UntrackedPastBound(count: nat)

  function EntryLimits(e: StatusEntry, c: Content): seq<Limitation> {
    if c.Incomplete? then [EntryUnread(e.path, c.failure)] else if c.Unhashed? then [EntryOverBudget(e.path)] else []
  }

  /** One limitation for each entry whose content is not known, in order. */
  function Limits(es: seq<StatusEntry>, cs: seq<Content>): seq<Limitation>
    requires |cs| == |es|
  {
    if es == [] then []
    else Limits(es[..|es| - 1], cs[..|es| - 1]) + EntryLimits(es[|es| - 1], cs[|es| - 1])
  }

  lemma LimitsSnoc(es: seq<StatusEntry>, cs: seq<Content>, e: StatusEntry, c: Content)
    requires |cs| == |es|
    ensures Limits(es + [e], cs + [c]) == Limits(es, cs) + EntryLimits(e, c)
  {
    assert (es + [e])[..|es|] == es && (cs + [c])[..|es|] == cs;
  }

  lemma {:induction false} NoLimits(es: seq<StatusEntry>, cs: seq<Content>)
    requires |cs| == |es|
    ensures Limits(es, cs) == [] <==> forall k :: 0 <= k < |cs| ==> Identified(cs[k])
    decreases |es|
  {
    if es != [] {
      NoLimits(es[..|es| - 1], cs[..|es| - 1]);
      assert forall k :: 0 <= k < |cs| - 1 ==> cs[..|es| - 1][k] == cs[k];
    }
  }

  lemma ContentsSnoc(w: World, es: seq<StatusEntry>, e: StatusEntry, budget: nat)
    ensures Contents(w, es + [e], budget) == Contents(w, es, budget) + [ContentAt(w, e, BudgetAfter(w, es, budget))]
    ensures var left := BudgetAfter(w, es, budget);
      var read := BytesRead(w, e, left);
      && BudgetAfter(w, es + [e], budget) == (if read.Some? then left - |read.value| else left)
      && FilesRead(w, es + [e], budget) == FilesRead(w, es, budget) + (if read.Some? then 1 else 0)
  {
    hide ContentAt, BytesRead;
    assert (es + [e])[..|es|] == es;
  }

  datatype Tally = Tally(
    fed: Bytes, left: nat, limitations: seq<Limitation>, dirty: nat, untracked: nat, hidden: nat, filesHashed: nat,
    bytesHashed: nat)

  /** What the fold has fed, spent and counted after some entries. */
  ghost predicate Folded(w: World, es: seq<StatusEntry>, budget: nat, before: Tally, t: Tally) {
    var cs := Contents(w, es, budget);
    && t.fed == before.fed + RowsText(RowsOf(w, es, cs))
    && t.left == BudgetAfter(w, es, budget)
    && t.bytesHashed == before.bytesHashed + (budget - t.left)
    && t.filesHashed == before.filesHashed + FilesRead(w, es, budget)
    && t.limitations == before.limitations + Limits(es, cs)
    && t.untracked == before.untracked + |Where(es, Untracked)|
    && t.hidden == before.hidden + |Where(es, HiddenEntry)|
    && t.dirty + t.untracked + t.hidden == before.dirty + before.untracked + before.hidden + |es|
  }

  /** Fold one entry into the running hash. */
  method FoldEntry(
    w: World, e: StatusEntry, t: Tally, ghost es: seq<StatusEntry>, ghost budget: nat, ghost before: Tally)
    returns (t': Tally)
    requires Folded(w, es, budget, before, t)
    ensures Folded(w, es + [e], budget, before, t')
  {
    hide ContentAt, BytesRead, Contents, BudgetAfter, FilesRead, Where, Limits, RowsText, RowsOf, Token, Field;
    ContentsSnoc(w, es, e, budget);
    WhereSnoc(es, e, Untracked);
    WhereSnoc(es, e, HiddenEntry);
    var content, read := ContentAt(w, e, t.left), BytesRead(w, e, t.left);
    ghost var cs := Contents(w, es, budget);
    LimitsSnoc(es, cs, e, content);
    RowsOfSnoc(w, es, cs, e, content);
    var row := Row(e, Token(w, e.path, content));
    RowsSnoc(RowsOf(w, es, cs), row);
    var fed := ((t.fed + [e.x, e.y]) + Field(e.path)) + Field(Origin(e.orig)) + Field(row.token);
    FedIsRow(t.fed, row);
    Assoc(before.fed, RowsText(RowsOf(w, es, cs)), RowText(row));
    AssocLimits(before.limitations, Limits(es, cs), EntryLimits(e, content));
    var size := if read.Some? then |read.value| else 0;
    t' := Tally(fed, t.left - size, t.limitations + EntryLimits(e, content),
                t.dirty + (if Untracked(e) || HiddenEntry(e) then 0 else 1),
                t.untracked + (if Untracked(e) then 1 else 0),
                t.hidden + (if HiddenEntry(e) then 1 else 0),
                t.filesHashed + (if read.Some? then 1 else 0), t.bytesHashed + size);
  }

  lemma FedIsRow(fed: Bytes, r: Row)
    ensures ((fed + [r.entry.x, r.entry.y]) + Field(r.entry.path)) + Field(Origin(r.entry.orig)) + Field(r.token)
      == fed + RowText(r)
  {
    hide Field, Origin;
  }

  lemma Assoc(a: Bytes, b: Bytes, c: Bytes) ensures a + b + c == a + (b + c) {}
  lemma AssocLimits(a: seq<Limitation>, b: seq<Limitation>, c: seq<Limitation>) ensures a + b + c == a + (b + c) {}

  method FoldEntries(w: World, es: seq<StatusEntry>, before: Tally) returns (t: Tally)
    ensures Folded(w, es, before.left, before, t)
  {
    hide ContentAt, BytesRead, Token, Field;
    t := before;
    ghost var budget := before.left;
    FoldNothing(w, before);
    for k := 0 to |es|
      invariant Folded(w, es[..k], budget, before, t)
    {
      hide *;
      assert es[..k + 1] == es[..k] + [es[k]];
      t := FoldEntry(w, es[k], t, es[..k], budget, before);
    }
    assert es[..|es|] == es;
  }

  lemma FoldNothing(w: World, before: Tally)
    ensures Folded(w, [], before.left, before, before)
  {
    NoRows();
    assert before.fed + [] == before.fed && before.limitations + [] == before.limitations;
  }

  /** What Git answered: nothing, a HEAD without a listing, or both. `hidden` is missing when
    * the index flags could not be read. */
  datatype Git = NoLayout | Unlisted(head: Bytes) | Answered(head: Bytes, hidden: Option<seq<StatusEntry>>,
    incomplete: bool)

  function HiddenOf(g: Git): seq<StatusEntry>
    requires g.Answered?
  {
    if g.hidden.Some? then g.hidden.value else []
  }

  /** The tree a call sees: the listing's entries, and where the budget starts. */
  datatype Seen = Seen(root: Bytes, head: Bytes, w: World, entries: seq<StatusEntry>, budget: nat, beyond: seq<Bytes>)

  function ContentsOf(s: Seen): seq<Content> { Contents(s.w, s.entries, s.budget) }

  /** What the key is taken over. */
  function Observe(s: Seen): Observation {
    Observation(s.root, Observed(s.head, RowsOf(s.w, s.entries, ContentsOf(s)), s.beyond))
  }

  datatype SourceIdentity = SourceIdentity(
    key: Digest, complete: bool, limitations: seq<Limitation>, dirty: nat, untracked: nat, untrackedBeyond: nat,
    hidden: nat, bytesHashed: nat)

  /** The budget the fold starts with: what the hashing pass did not charge. */
  function StartBudget(charged: nat): nat { if charged <= MAX_IDENTITY_BYTES then MAX_IDENTITY_BYTES - charged else 0 }

  ghost function SeenBy(root: Bytes, git: Git, walk: StatusWalk, w: World, charged: nat): Seen
    requires git.Answered?
    reads walk
  {
    Seen(root, git.head, w, Arranged(walk.entries, HiddenOf(git)), StartBudget(charged),
         Paths(Past(Where(walk.seen, Untracked), MAX_IDENTITY_UNTRACKED)))
  }

  /** The identity of an observed tree. It is complete exactly when every entry's content is
    * known, no untracked entry is past the bound and both listings were whole; and the bytes
    * it hashes, with those the pass charged, stay within the budget. */
  method IdentityOf(root: Bytes, git: Git, walk: StatusWalk, w: World, hashed: nat, reused: nat, sha: Bytes -> Digest)
    returns (id: SourceIdentity)
    requires walk.Valid()
    ensures git.NoLayout? ==> id.key == Key(Observation(root, Unavailable), sha) && !id.complete
    ensures git.Unlisted? ==> id.key == Key(Observation(root, Failed(git.head)), sha) && !id.complete
    ensures git.Answered? ==>
      var seen := SeenBy(root, git, walk, w, hashed + reused);
      && id.key == Key(Observe(seen), sha)
      && (id.complete <==>
            && git.hidden.Some? && !git.incomplete && seen.beyond == []
            && forall k :: 0 <= k < |ContentsOf(seen)| ==> Identified(ContentsOf(seen)[k]))
      && id.dirty + id.untracked + id.hidden == |seen.entries| + |seen.beyond|
      && id.untrackedBeyond == |seen.beyond|
      && (hashed + reused <= MAX_IDENTITY_BYTES ==> id.bytesHashed + reused <= MAX_IDENTITY_BYTES)
  {
    hide Where, Framed, RowsText, Contents, BudgetAfter, Field, Sort, RowsOf, Limits, Token, Identified, NO_GIT,
      STATUS_FAILED, BEYOND, TAG;
    var fed := TAG + Field(root);
    if git.NoLayout? {
      Assoc(TAG, Field(root), NO_GIT);
      return SourceIdentity(sha(fed + NO_GIT), false, [GitUnavailable], 0, 0, 0, 0, 0);
    }
    fed := fed + Field(git.head);
    Assoc(TAG, Field(root), Field(git.head));
    if git.Unlisted? {
      Assoc(TAG, Field(root) + Field(git.head), STATUS_FAILED);
      Assoc(Field(root), Field(git.head), STATUS_FAILED);
      return SourceIdentity(sha(fed + STATUS_FAILED), false, [StatusUnread], 0, 0, 0, 0, 0);
    }
    var entries := Arranged(walk.entries, HiddenOf(git));
    var limits := (if git.hidden.None? then [IndexFlagsFailed] else []) +
      (if git.incomplete then [UntrackedWalkIncomplete] else []);
    var budget := StartBudget(hashed + reused);
    var t := FoldEntries(w, entries, Tally(fed, budget, limits, 0, 0, 0, 0, hashed));
    ghost var seen := SeenBy(root, git, walk, w, hashed + reused);
    NoLimits(entries, ContentsOf(seen));
    var out, all := t.fed, t.limitations;
    if walk.beyond > 0 {
      out := out + BEYOND + Field(CacheCodec.Le(walk.beyond, 8)) + Field(sha(walk.beyondPaths));
      all := all + [UntrackedPastBound(walk.beyond)];
    }
    StreamGrows(root, git.head, RowsText(RowsOf(w, entries, ContentsOf(seen))), seen.beyond, sha);
    id := SourceIdentity(sha(out), all == [], all, t.dirty, t.untracked + walk.beyond, walk.beyond, t.hidden,
      t.bytesHashed);
  }

  lemma StreamGrows(root: Bytes, head: Bytes, rows: Bytes, beyond: seq<Bytes>, sha: Bytes -> Digest)
    ensures var fed := TAG + Field(root) + Field(head) + rows;
      (if beyond == [] then fed else fed + BEYOND + Field(CacheCodec.Le(|beyond|, 8)) + Field(sha(Framed(beyond))))
        == TAG + (Field(root) + (Field(head) + (rows + BeyondText(beyond, sha))))
  {
    hide Field, Framed, CacheCodec.Le, TAG, BEYOND;
    if beyond == [] {
      assert rows + [] == rows;
      Regroup(TAG, Field(root), Field(head), rows, [], [], []);
    } else {
      Regroup(TAG, Field(root), Field(head), rows, BEYOND, Field(CacheCodec.Le(|beyond|, 8)),
        Field(sha(Framed(beyond))));
    }
  }

  lemma Regroup(a: Bytes, b: Bytes, c: Bytes, d: Bytes, e: Bytes, f: Bytes, g: Bytes)
    ensures a + b + c + d == a + (b + (c + d))
    ensures a + b + c + d + e + f + g == a + (b + (c + (d + (e + (f + g)))))
  {
    assert a + b + c + d == a + (b + (c + d));
    assert (b + (c + d)) + e + f + g == b + (c + (d + (e + (f + g))));
  }

  // ---- what equal keys say ------------------------------------------------------------------------

  /** The same root, HEAD, entries and paths past the bound, and the same content wherever one
    * of the two knows it. */
  ghost predicate SameSources(s: Seen, t: Seen) {
    && s.root == t.root && s.head == t.head && s.entries == t.entries && s.beyond == t.beyond
    && forall k :: 0 <= k < |s.entries| ==> SameContent(ContentsOf(s)[k], ContentsOf(t)[k])
  }

  /** A content is the hash of some bytes: a file's, or a link's target. */
  predicate HashOf(c: Content, hex: Bytes -> Bytes, x: Bytes) { c == Sha256(hex(x)) || c == Symlink(hex(x)) }

  ghost predicate HexCollides(hex: Bytes -> Bytes, x: Bytes, y: Bytes) { x != y && hex(x) == hex(y) }

  /** Known content is a digest. Where two trees with the same sources hold the hashes of bytes,
    * those bytes are equal or are themselves a collision. */
  lemma SameBytes(s: Seen, t: Seen, k: nat, hex: Bytes -> Bytes, x: Bytes, y: Bytes)
    requires SameSources(s, t) && k < |s.entries|
    requires HashOf(ContentsOf(s)[k], hex, x) && HashOf(ContentsOf(t)[k], hex, y)
    ensures x == y || HexCollides(hex, x, y)
  {
    hide Contents;
    assert SameContent(ContentsOf(s)[k], ContentsOf(t)[k]);
  }

  ghost predicate SameContent(a: Content, b: Content) { Identified(a) || Identified(b) ==> a == b }

  lemma SameContentAt(s: Seen, t: Seen, k: nat)
    requires s.entries == t.entries && k < |s.entries|
    requires Token(s.w, s.entries[k].path, ContentsOf(s)[k]) == Token(t.w, t.entries[k].path, ContentsOf(t)[k])
    ensures SameContent(ContentsOf(s)[k], ContentsOf(t)[k])
  {
    hide Token, Contents, Identified;
    ContentsArise(s.w, s.entries, s.budget, k);
    ContentsArise(t.w, t.entries, t.budget, k);
    var p := s.entries[k].path;
    if Identified(ContentsOf(s)[k]) {
      TokenTells(s.w, p, ContentsOf(s)[k], t.w, p, ContentsOf(t)[k]);
    } else if Identified(ContentsOf(t)[k]) {
      TokenTells(t.w, p, ContentsOf(t)[k], s.w, p, ContentsOf(s)[k]);
    }
  }

  /** Equal keys of two observed trees are equal sources, or the hash has collided: on the two
    * streams, or on the two lists of paths past the bound. */
  lemma SameKeySameSources(s: Seen, t: Seen, sha: Bytes -> Digest)
    requires Lawful(Observe(s)) && Lawful(Observe(t))
    ensures Key(Observe(s), sha) == Key(Observe(t), sha) ==>
      SameSources(s, t) || Collides(sha, Stream(Observe(s), sha), Stream(Observe(t), sha)) ||
        Collides(sha, Framed(s.beyond), Framed(t.beyond))
  {
    hide Key, Stream, Lawful, Collides, Token, Contents, SameContent, Framed;
    if Key(Observe(s), sha) == Key(Observe(t), sha) {
      KeyInjective(Observe(s), Observe(t), sha);
      if Observe(s) == Observe(t) {
        var a, b := RowsOf(s.w, s.entries, ContentsOf(s)), RowsOf(t.w, t.entries, ContentsOf(t));
        assert a == b && |s.entries| == |t.entries|;
        forall k | 0 <= k < |s.entries| ensures s.entries[k] == t.entries[k] { assert a[k].entry == b[k].entry; }
        forall k | 0 <= k < |s.entries| ensures SameContent(ContentsOf(s)[k], ContentsOf(t)[k]) {
          assert a[k].token == b[k].token;
          SameContentAt(s, t, k);
        }
      }
    }
  }

  lemma {:induction false} ContentsArise(w: World, es: seq<StatusEntry>, budget: nat, k: nat)
    requires k < |es|
    ensures Arises(Contents(w, es, budget)[k])
    decreases |es|
  {
    hide ContentAt, BytesRead, Arises;
    var init := es[..|es| - 1];
    if k < |es| - 1 {
      ContentsArise(w, init, budget, k);
    } else {
      ContentArises(w, es[k], BudgetAfter(w, init, budget));
    }
  }

  // ---- the cache leaves no trace ------------------------------------------------------------------

  /** The world a hashing pass leaves: a path that names a file by `name` is hashed when the
    * pass returned a digest for it. */
  function AfterPass(
    w: World, digests: map<HashPass.Path, Digest>, name: Bytes -> Option<HashPass.Path>, text: Digest -> Bytes): World
  {
    w.(hashed := p => if name(p).Some? && name(p).value in digests then Some(text(digests[name(p).value])) else None)
  }

  /** What a pass from some cache returns within the identity's budget. */
  function PassDigests(
    tree: HashPass.Tree, rels: seq<HashPass.Path>, cache: StatCache.Cache<HashPass.Path>, window: StatCache.i64,
    sha: Bytes -> Digest): map<HashPass.Path, Digest>
  {
    HashPass.Digests(HashPass.Entries(tree, rels, MAX_IDENTITY_BYTES, sha, cache, window))
  }

  /** What the identity sees after a pass from some cache. */
  function SeenFrom(
    s: Seen, tree: HashPass.Tree, rels: seq<HashPass.Path>, cache: StatCache.Cache<HashPass.Path>,
    window: StatCache.i64, sha: Bytes -> Digest, name: Bytes -> Option<HashPass.Path>, text: Digest -> Bytes): Seen
  {
    s.(w := AfterPass(s.w, PassDigests(tree, rels, cache, window, sha), name, text),
       budget := StartBudget(MAX_IDENTITY_BYTES - HashPass.LeftAfter(tree, rels, MAX_IDENTITY_BYTES)))
  }

  /** The pass and the fold see one tree: every path the pass was given is an entry's, and a file
    * whose read fails in the pass is no directory and fails in the fold too. */
  ghost predicate Tied(s: Seen, tree: HashPass.Tree, rels: seq<HashPass.Path>, name: Bytes -> Option<HashPass.Path>) {
    && (forall p :: p in rels ==> exists k :: 0 <= k < |s.entries| && name(s.entries[k].path) == Some(p))
    && (forall k :: 0 <= k < |s.entries| && FailsToRead(tree, name(s.entries[k].path)) ==>
          s.w.directory(Trimmed(s.entries[k].path)).NotDirectory? &&
            s.w.source(s.entries[k].path) == Closed(Unreadable))
  }

  predicate FailsToRead(tree: HashPass.Tree, p: Option<HashPass.Path>) {
    p.Some? && tree(p.value).Regular? && !tree(p.value).readable
  }

  /** A file that only one of two passes answered for has two contents. */
  lemma ContentsTell(s: Seen, t: Seen, k: nat)
    requires s.entries == t.entries && k < |s.entries|
    requires s.w.hashed(s.entries[k].path).Some? && t.w.hashed(s.entries[k].path).None?
    requires t.w.directory(Trimmed(s.entries[k].path)).NotDirectory? &&
      t.w.source(s.entries[k].path) == Closed(Unreadable)
    ensures Observe(s) != Observe(t)
  {
    ContentsAt(s.w, s.entries, s.budget, k);
    ContentsAt(t.w, t.entries, t.budget, k);
    hide Contents, Token, BudgetAfter;
    var a, b := ContentsOf(s)[k], ContentsOf(t)[k];
    var p := s.entries[k].path;
    assert a.Sha256? && !b.Sha256?;
    ContentsArise(t.w, t.entries, t.budget, k);
    if Token(s.w, p, a) == Token(t.w, p, b) { TokenTells(s.w, p, a, t.w, p, b); }
    assert RowsOf(s.w, s.entries, ContentsOf(s))[k] == Row(s.entries[k], Token(s.w, p, a));
    assert RowsOf(t.w, t.entries, ContentsOf(t))[k] == Row(t.entries[k], Token(t.w, p, b));
  }

  lemma {:induction false} ContentsAt(w: World, es: seq<StatusEntry>, budget: nat, k: nat)
    requires k < |es|
    ensures Contents(w, es, budget)[k] == ContentAt(w, es[k], BudgetAfter(w, es[..k], budget))
    decreases |es|
  {
    hide ContentAt, BytesRead;
    var init := es[..|es| - 1];
    if k < |init| {
      ContentsAt(w, init, budget, k);
      assert init[..k] == es[..k];
    }
  }

  /** Caches that do not reuse alike give different observations. */
  lemma UnlikeShows(
    s: Seen, tree: HashPass.Tree, rels: seq<HashPass.Path>,
    a: StatCache.Cache<HashPass.Path>, b: StatCache.Cache<HashPass.Path>,
    window: StatCache.i64, sha: Bytes -> Digest, name: Bytes -> Option<HashPass.Path>, text: Digest -> Bytes)
    requires HashPass.Distinct(rels) && Tied(s, tree, rels, name)
    requires !HashPass.ReusedAlike(tree, rels, MAX_IDENTITY_BYTES, a, b, window)
    ensures Observe(SeenFrom(s, tree, rels, a, window, sha, name, text))
      != Observe(SeenFrom(s, tree, rels, b, window, sha, name, text))
  {
    hide HashPass.Entries, HashPass.LeftAfter, HashPass.Reused, Observe;
    var j :| 0 < j <= |rels| && HashPass.Charged(tree, rels[..j], MAX_IDENTITY_BYTES) && !tree(rels[j - 1]).readable
      && HashPass.Reused(tree, rels[j - 1], a, window) != HashPass.Reused(tree, rels[j - 1], b, window);
    var p := rels[j - 1];
    assert p in rels && rels[..j][|rels[..j]| - 1] == p;
    HashPass.ChargedAnswered(tree, rels, MAX_IDENTITY_BYTES, sha, a, window, j);
    HashPass.ChargedAnswered(tree, rels, MAX_IDENTITY_BYTES, sha, b, window, j);
    var k :| 0 <= k < |s.entries| && name(s.entries[k].path) == Some(p);
    assert FailsToRead(tree, name(s.entries[k].path));
    var x, y := SeenFrom(s, tree, rels, a, window, sha, name, text),
      SeenFrom(s, tree, rels, b, window, sha, name, text);
    if HashPass.Reused(tree, p, a, window) {
      ContentsTell(x, y, k);
    } else {
      ContentsTell(y, x, k);
    }
  }

  /** The key does not depend on the cache. Two truthful caches, a missing one included, give
    * the pass one map exactly when they reuse the same of the files whose read would fail, and
    * then they give one key; with no such file every two do. When the pass and the fold see one
    * tree, caches that do not reuse alike never give one key but for a collision. */
  lemma KeyIgnoresCache(
    s: Seen, tree: HashPass.Tree, rels: seq<HashPass.Path>,
    a: StatCache.Cache<HashPass.Path>, b: StatCache.Cache<HashPass.Path>,
    window: StatCache.i64, sha: Bytes -> Digest, name: Bytes -> Option<HashPass.Path>, text: Digest -> Bytes)
    requires HashPass.Distinct(rels)
    requires HashPass.Truthful(tree, a, window, sha) && HashPass.Truthful(tree, b, window, sha)
    ensures var alike := HashPass.ReusedAlike(tree, rels, MAX_IDENTITY_BYTES, a, b, window);
      var x := Observe(SeenFrom(s, tree, rels, a, window, sha, name, text));
      var y := Observe(SeenFrom(s, tree, rels, b, window, sha, name, text));
      && (alike <==> PassDigests(tree, rels, a, window, sha) == PassDigests(tree, rels, b, window, sha))
      && (alike ==> Key(x, sha) == Key(y, sha))
      && (Tied(s, tree, rels, name) && Lawful(x) && Lawful(y) ==>
            (Key(x, sha) == Key(y, sha) <==> alike || Collides(sha, Stream(x, sha), Stream(y, sha))))
      && ((forall p :: p in rels && tree(p).Regular? ==> tree(p).readable) ==> alike)
  {
    hide Key, Stream, Lawful, HashPass.Entries, HashPass.Charged, HashPass.ReusedAlike, HashPass.Truthful, Contents,
      RowsOf;
    HashPass.CachesAgree(tree, rels, MAX_IDENTITY_BYTES, sha, a, b, window);
    var x := Observe(SeenFrom(s, tree, rels, a, window, sha, name, text));
    var y := Observe(SeenFrom(s, tree, rels, b, window, sha, name, text));
    if forall p :: p in rels && tree(p).Regular? ==> tree(p).readable {
      AllReadable(tree, rels, a, b, window);
    }
    if Tied(s, tree, rels, name) && Lawful(x) && Lawful(y) &&
      !HashPass.ReusedAlike(tree, rels, MAX_IDENTITY_BYTES, a, b, window) {
      UnlikeShows(s, tree, rels, a, b, window, sha, name, text);
      SameBeyond(x, y, sha);
    }
  }

  /** Observations with one list past the bound have one key exactly when they are equal or their
    * streams collide. */
  lemma SameBeyond(x: Observation, y: Observation, sha: Bytes -> Digest)
    requires Lawful(x) && Lawful(y) && x.state.Observed? && y.state.Observed? && x.state.beyond == y.state.beyond
    ensures Key(x, sha) == Key(y, sha) <==> x == y || Collides(sha, Stream(x, sha), Stream(y, sha))
  {
    hide Stream, Lawful;
    if Key(x, sha) == Key(y, sha) { KeyInjective(x, y, sha); }
  }

  lemma AllReadable(
    tree: HashPass.Tree, rels: seq<HashPass.Path>, a: StatCache.Cache<HashPass.Path>,
    b: StatCache.Cache<HashPass.Path>, window: StatCache.i64)
    requires forall p :: p in rels && tree(p).Regular? ==> tree(p).readable
    ensures HashPass.ReusedAlike(tree, rels, MAX_IDENTITY_BYTES, a, b, window)
  {
    forall k | 0 < k <= |rels| && HashPass.Charged(tree, rels[..k], MAX_IDENTITY_BYTES)
      ensures tree(rels[k - 1]).readable {
      assert rels[..k][|rels[..k]| - 1] == rels[k - 1] && rels[k - 1] in rels;
    }
  }
}
