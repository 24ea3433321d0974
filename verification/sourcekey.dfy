/** The key of a working tree: what is folded into it, and what equal keys say. */
module SourceKey {
  import opened Base
  import opened Framing
  import opened StatusList
  import CacheCodec
  import StatCache

  type Digest = StatCache.Digest

  /** The bytes of an ASCII text. */
  function Ascii(s: string): (b: Bytes)
    ensures |b| == |s|
  {
    seq(|s|, i requires 0 <= i < |s| => (s[i] as int) % 256)
  }

  // ---- the stream ------------------------------------------------------------------------

  /** One status entry with the token of its content. */
  datatype Row = Row(entry: StatusEntry, token: Bytes)

  datatype State =
    | Unavailable
    | Failed(head: Bytes)
    | Observed(head: Bytes, rows: seq<Row>, beyond: seq<Bytes>)

  datatype Observation = Observation(root: Bytes, state: State)

  const NUL: byte := 0
  const TAG: Bytes := Ascii("xm-source-key-v1") + [NUL]
  const NO_GIT: Bytes := Ascii("git-unavailable")
  const STATUS_FAILED: Bytes := Ascii("status-failed")
  const BEYOND: Bytes := Ascii("untracked-beyond")
  const NO_ORIGIN: Bytes := [NUL] + Ascii("none")

  function Origin(o: Option<Bytes>): Bytes { if o.Some? then o.value else NO_ORIGIN }

  function RowText(r: Row): Bytes {
    [r.entry.x, r.entry.y] + (Field(r.entry.path) + (Field(Origin(r.entry.orig)) + Field(r.token)))
  }

  function RowsText(rows: seq<Row>): Bytes {
    if rows == [] then [] else RowsText(rows[..|rows| - 1]) + RowText(rows[|rows| - 1])
  }

  /** The untracked paths past the bound: how many, and the digest of their list. */
  function BeyondText(paths: seq<Bytes>, sha: Bytes -> Digest): Bytes {
    if paths == [] then [] else BEYOND + (Field(CacheCodec.Le(|paths|, 8)) + Field(sha(Framed(paths))))
  }

  function StateText(s: State, sha: Bytes -> Digest): Bytes {
    match s
    case Unavailable => NO_GIT
    case Failed(head) => Field(head) + STATUS_FAILED
    case Observed(head, rows, beyond) => Field(head) + (RowsText(rows) + BeyondText(beyond, sha))
  }

  /** Everything that is folded into the key, in order. */
  function Stream(o: Observation, sha: Bytes -> Digest): Bytes {
    TAG + (Field(o.root) + StateText(o.state, sha))
  }

  /** The letters Git's porcelain status and the hidden-entry marker put first. */
  predicate StatusLetter(x: byte) {
    || x == SPACE || x == QUESTION || x == BANG || x == LETTER_R || x == LETTER_C
    || x == 0x4D || x == 0x54 || x == 0x41 || x == 0x44 || x == 0x55
  }

  predicate LawfulRow(r: Row) {
    && StatusLetter(r.entry.x)
    && Fits(r.entry.path) && Fits(r.token)
    && (r.entry.orig.Some? ==> Fits(r.entry.orig.value) && NulFree(r.entry.orig.value))
  }

  predicate LawfulState(s: State) {
    match s
    case Unavailable => true
    case Failed(head) => Fits(head)
    case Observed(head, rows, beyond) =>
      && Fits(head) && |beyond| <= ISIZE_MAX
      && (forall k :: 0 <= k < |rows| ==> LawfulRow(rows[k]))
      && (forall k :: 0 <= k < |beyond| ==> Fits(beyond[k]))
  }

  /** Slices no longer than a slice can be, status letters from Git's alphabet, and origins
    * without a NUL, which is what ends them in Git's output. */
  predicate Lawful(o: Observation) { Fits(o.root) && LawfulState(o.state) }

  // ---- the stream reads one way only ----------------------------------------------------------

  lemma OriginInjective(a: Option<Bytes>, b: Option<Bytes>)
    requires (a.Some? ==> NulFree(a.value)) && (b.Some? ==> NulFree(b.value)) && Origin(a) == Origin(b)
    ensures a == b
  {
    assert NO_ORIGIN[0] == NUL;
  }

  lemma OriginFits(a: Option<Bytes>)
    requires a.Some? ==> Fits(a.value)
    ensures Fits(Origin(a))
  {
    assert |NO_ORIGIN| == 5;
  }

  lemma RowInjective(a: Row, b: Row, s: Bytes, t: Bytes)
    requires LawfulRow(a) && LawfulRow(b) && RowText(a) + s == RowText(b) + t
    ensures a == b && s == t
  {
    hide Field, Origin, NulFree, StatusLetter;
    var oa, ob := Origin(a.entry.orig), Origin(b.entry.orig);
    RowSplits(a, s);
    RowSplits(b, t);
    SplitEqual([a.entry.x, a.entry.y], [b.entry.x, b.entry.y],
               Field(a.entry.path) + (Field(oa) + (Field(a.token) + s)),
                 Field(b.entry.path) + (Field(ob) + (Field(b.token) + t)));
    assert [a.entry.x, a.entry.y][0] == [b.entry.x, b.entry.y][0] &&
      [a.entry.x, a.entry.y][1] == [b.entry.x, b.entry.y][1];
    FieldInjective(a.entry.path, b.entry.path, Field(oa) + (Field(a.token) + s), Field(ob) + (Field(b.token) + t));
    OriginFits(a.entry.orig);
    OriginFits(b.entry.orig);
    FieldInjective(oa, ob, Field(a.token) + s, Field(b.token) + t);
    OriginInjective(a.entry.orig, b.entry.orig);
    FieldInjective(a.token, b.token, s, t);
  }

  lemma RowSplits(r: Row, s: Bytes)
    ensures RowText(r) + s == [r.entry.x, r.entry.y] +
      (Field(r.entry.path) + (Field(Origin(r.entry.orig)) + (Field(r.token) + s)))
  {
    hide Field, Origin;
  }

  lemma RowsSnoc(rows: seq<Row>, r: Row)
    ensures RowsText(rows + [r]) == RowsText(rows) + RowText(r)
  {
    hide RowText;
    assert (rows + [r])[..|rows|] == rows;
  }

  lemma {:induction false} RowsCons(r: Row, rows: seq<Row>)
    ensures RowsText([r] + rows) == RowText(r) + RowsText(rows)
    decreases |rows|
  {
    hide RowText;
    if rows == [] {
      assert [r] + rows == [] + [r];
      RowsSnoc([], r);
    } else {
      var init, last := rows[..|rows| - 1], rows[|rows| - 1];
      RowsCons(r, init);
      assert [r] + rows == ([r] + init) + [last] && rows == init + [last];
      RowsSnoc([r] + init, last);
      RowsSnoc(init, last);
    }
  }

  /** What may follow the rows: nothing, or something no status letter starts. */
  predicate Closing(t: Bytes) { t == [] || !StatusLetter(t[0]) }

  /** Rows on the left: their first byte is the first status letter. */
  lemma RowsStart(rows: seq<Row>, t: Bytes)
    requires rows != [] && LawfulRow(rows[0])
    ensures RowsText(rows) + t == RowText(rows[0]) + (RowsText(rows[1..]) + t)
    ensures !Closing(RowsText(rows) + t)
  {
    hide RowsText, Field;
    assert rows == [rows[0]] + rows[1..];
    RowsCons(rows[0], rows[1..]);
    assert (RowText(rows[0]) + RowsText(rows[1..]) + t)[0] == rows[0].entry.x;
  }

  /** A list of rows and what follows it can be told apart in one way only. */
  lemma {:induction false} RowsInjective(a: seq<Row>, b: seq<Row>, s: Bytes, t: Bytes)
    requires (forall k :: 0 <= k < |a| ==> LawfulRow(a[k])) && (forall k :: 0 <= k < |b| ==> LawfulRow(b[k]))
    requires Closing(s) && Closing(t) && RowsText(a) + s == RowsText(b) + t
    ensures a == b && s == t
    decreases |a|
  {
    hide RowsText, RowText, LawfulRow, Closing;
    NoRows();
    if a != [] { RowsStart(a, s); } else { assert RowsText(a) + s == s; }
    if b != [] { RowsStart(b, t); } else { assert RowsText(b) + t == t; }
    if a != [] && b != [] {
      RowInjective(a[0], b[0], RowsText(a[1..]) + s, RowsText(b[1..]) + t);
      RowsInjective(a[1..], b[1..], s, t);
      assert a == [a[0]] + a[1..] && b == [b[0]] + b[1..];
    }
  }

  lemma NoRows() ensures RowsText([]) == [] {}

  lemma MarksClose(paths: seq<Bytes>, sha: Bytes -> Digest)
    ensures Closing(STATUS_FAILED) && Closing(BeyondText(paths, sha)) && STATUS_FAILED != BeyondText(paths, sha)
  {
    hide Field, CacheCodec.Le, Framed;
    assert |STATUS_FAILED| == 13 && STATUS_FAILED[0] == 0x73;
    assert |BEYOND| == 16 && BEYOND[0] == 0x75;
    assert paths != [] ==> BeyondText(paths, sha)[0] == 0x75;
  }

  /** Two inputs with one digest. */
  ghost predicate Collides(sha: Bytes -> Digest, x: Bytes, y: Bytes) { x != y && sha(x) == sha(y) }

  lemma BeyondInjective(a: seq<Bytes>, b: seq<Bytes>, sha: Bytes -> Digest)
    requires |a| <= ISIZE_MAX && |b| <= ISIZE_MAX
    requires (forall k :: 0 <= k < |a| ==> Fits(a[k])) && (forall k :: 0 <= k < |b| ==> Fits(b[k]))
    requires BeyondText(a, sha) == BeyondText(b, sha)
    ensures a == b || Collides(sha, Framed(a), Framed(b))
  {
    hide Field, CacheCodec.Le, Framed;
    assert |BEYOND| == 16;
    if a != [] && b != [] {
      var la, lb := CacheCodec.Le(|a|, 8), CacheCodec.Le(|b|, 8);
      var da, db := sha(Framed(a)), sha(Framed(b));
      SplitEqual(BEYOND, BEYOND, Field(la) + Field(da), Field(lb) + Field(db));
      FieldInjective(la, lb, Field(da), Field(db));
      assert Field(da) + [] == Field(da) && Field(db) + [] == Field(db);
      FieldInjective(da, db, [], []);
      if Framed(a) == Framed(b) { FramedInjective(a, b); }
    }
  }

  /** A field never spells the no-Git mark: fifteen bytes leave at most seven for its content,
    * and no count up to seven is the mark's first letter. */
  lemma FieldIsNotNoGit(head: Bytes, rest: Bytes)
    ensures Field(head) + rest != NO_GIT
  {
    assert |NO_GIT| == 15 && NO_GIT[0] == 0x67;
    assert |Field(head) + rest| >= 8 + |head| && (Field(head) + rest)[0] == |head| % 256;
  }

  ghost predicate BeyondCollides(a: State, b: State, sha: Bytes -> Digest) {
    a.Observed? && b.Observed? && Collides(sha, Framed(a.beyond), Framed(b.beyond))
  }

  lemma StateInjective(a: State, b: State, sha: Bytes -> Digest)
    requires LawfulState(a) && LawfulState(b) && StateText(a, sha) == StateText(b, sha)
    ensures a == b || BeyondCollides(a, b, sha)
  {
    hide Field, RowsText, BeyondText, Framed, LawfulRow, Closing, Collides;
    if a.Unavailable? || b.Unavailable? {
      if !a.Unavailable? { FieldIsNotNoGit(a.head, StateRest(a, sha)); }
      if !b.Unavailable? { FieldIsNotNoGit(b.head, StateRest(b, sha)); }
    } else {
      FieldInjective(a.head, b.head, StateRest(a, sha), StateRest(b, sha));
      RestInjective(a, b, sha);
    }
  }

  function StateRest(s: State, sha: Bytes -> Digest): Bytes
    requires !s.Unavailable?
  {
    if s.Failed? then STATUS_FAILED else RowsText(s.rows) + BeyondText(s.beyond, sha)
  }

  lemma RestInjective(a: State, b: State, sha: Bytes -> Digest)
    requires LawfulState(a) && LawfulState(b) && !a.Unavailable? && !b.Unavailable? && a.head == b.head
    requires StateRest(a, sha) == StateRest(b, sha)
    ensures a == b || BeyondCollides(a, b, sha)
  {
    hide Field, RowsText, BeyondText, Framed, LawfulRow, Closing, Collides;
    NoRows();
    assert [] + STATUS_FAILED == STATUS_FAILED;
    var ra, rb := if a.Failed? then [] else a.rows, if b.Failed? then [] else b.rows;
    var sa := if a.Failed? then STATUS_FAILED else BeyondText(a.beyond, sha);
    var sb := if b.Failed? then STATUS_FAILED else BeyondText(b.beyond, sha);
    MarksClose(if a.Failed? then [] else a.beyond, sha);
    MarksClose(if b.Failed? then [] else b.beyond, sha);
    RowsInjective(ra, rb, sa, sb);
    if a.Observed? && b.Observed? { BeyondInjective(a.beyond, b.beyond, sha); }
  }

  /** The stream tells every two observations apart, or the two lists of paths past the bound
    * collide. Streams of different kinds always differ. */
  lemma StreamInjective(a: Observation, b: Observation, sha: Bytes -> Digest)
    requires Lawful(a) && Lawful(b) && Stream(a, sha) == Stream(b, sha)
    ensures a == b || BeyondCollides(a.state, b.state, sha)
  {
    hide Field, StateText, LawfulState, BeyondCollides;
    SplitEqual(TAG, TAG, Field(a.root) + StateText(a.state, sha), Field(b.root) + StateText(b.state, sha));
    FieldInjective(a.root, b.root, StateText(a.state, sha), StateText(b.state, sha));
    StateInjective(a.state, b.state, sha);
  }

  function Key(o: Observation, sha: Bytes -> Digest): Digest { sha(Stream(o, sha)) }

  /** Equal keys are equal observations: root, HEAD, entries with origins and tokens in order,
    * and the paths past the bound; or the hash has collided, on the streams or on the lists. */
  lemma KeyInjective(a: Observation, b: Observation, sha: Bytes -> Digest)
    requires Lawful(a) && Lawful(b) && Key(a, sha) == Key(b, sha)
    ensures a == b || Collides(sha, Stream(a, sha), Stream(b, sha)) || BeyondCollides(a.state, b.state, sha)
  {
    hide Stream, BeyondCollides, Lawful;
    if Stream(a, sha) == Stream(b, sha) { StreamInjective(a, b, sha); }
  }

  /** An observed tree's key is never that of a failed status or of a tree without Git, whatever
    * the paths past the bound do: only a collision on the streams themselves is left. */
  lemma KindsApart(a: Observation, b: Observation, sha: Bytes -> Digest)
    requires Lawful(a) && Lawful(b) && a.state.Observed? && !b.state.Observed?
    ensures Stream(a, sha) != Stream(b, sha)
    ensures Key(a, sha) == Key(b, sha) ==> Collides(sha, Stream(a, sha), Stream(b, sha))
  {
    hide Stream, Lawful;
    if Stream(a, sha) == Stream(b, sha) { StreamInjective(a, b, sha); }
  }
}
