/** Matching a file's buffer, listing its occurrences, and reading files under the caps. */
module FileScan {
  import opened Base
  import opened Pattern
  import opened Shapes
  import opened Language
  import opened Scanner

  const MAX_MATCH_BYTES: nat := 4096

  // ---- positions ----------------------------------------------------------------------

  function Newlines(h: seq<byte>): nat {
    if h == [] then 0 else Newlines(h[..|h| - 1]) + if h[|h| - 1] == LF then 1 else 0
  }

  /** The index of the last LF. */
  function LastNewline(h: seq<byte>): (r: Option<nat>)
    ensures match r
            case Some(l) => l < |h| && h[l] == LF && forall k :: l < k < |h| ==> h[k] != LF
            case None => LF !in h
  {
    if h == [] then None
    else if h[|h| - 1] == LF then Some(|h| - 1)
    else LastNewline(h[..|h| - 1])
  }

  /** The 1-based line of an offset: one more than the newlines before it. */
  function LineOf(h: seq<byte>, s: nat): nat
    requires s <= |h|
  {
    1 + Newlines(h[..s])
  }

  /** The 1-based byte column: the distance from the newline before it. */
  function ColumnOf(h: seq<byte>, s: nat): nat
    requires s <= |h|
  {
    var last := LastNewline(h[..s]);
    if last.Some? then s - last.value else s + 1
  }

  lemma {:induction false} NewlinesAdd(a: seq<byte>, b: seq<byte>)
    ensures Newlines(a + b) == Newlines(a) + Newlines(b)
    decreases |b|
  {
    if b == [] {
      assert a + b == a;
    } else {
      assert (a + b)[..|a + b| - 1] == a + b[..|b| - 1];
      NewlinesAdd(a, b[..|b| - 1]);
    }
  }

  lemma LastNewlineIs(h: seq<byte>, l: nat)
    requires l < |h| && h[l] == LF && forall k :: l < k < |h| ==> h[k] != LF
    ensures LastNewline(h) == Some(l)
  {
  }

  /** A position that only moves forward; the line is carried, not looked up. */
  class Tracker {
    var line: nat
    var column: nat
    var at: nat

    ghost predicate Valid(hay: seq<byte>)
      reads this
    {
      at <= |hay| && line == LineOf(hay, at) && column == ColumnOf(hay, at)
    }

    constructor ()
      ensures at == 0 && forall hay :: Valid(hay)
    {
      line, column, at := 1, 1, 0;
    }

    method Advance(hay: seq<byte>, to: nat) returns (l: nat, c: nat)
      requires Valid(hay) && at <= to <= |hay|
      modifies this
      ensures Valid(hay) && at == to && l == LineOf(hay, to) && c == ColumnOf(hay, to)
    {
      var gap := hay[at..to];
      assert hay[..to] == hay[..at] + gap;
      NewlinesAdd(hay[..at], gap);
      var last := LastNewline(gap);
      if last.Some? {
        LastNewlineIs(hay[..to], at + last.value);
        line := line + Newlines(gap);
        column := |gap| - last.value;
      } else {
        NoNewlines(gap);
        ColumnGrows(hay, at, to);
        column := column + |gap|;
      }
      at := to;
      l, c := line, column;
    }
  }

  lemma {:induction false} NoNewlines(gap: seq<byte>)
    requires LF !in gap
    ensures Newlines(gap) == 0
  {
    if gap != [] { NoNewlines(gap[..|gap| - 1]); }
  }

  /** With no LF between two offsets the column grows by their distance. */
  lemma ColumnGrows(hay: seq<byte>, at: nat, to: nat)
    requires at <= to <= |hay| && LF !in hay[at..to]
    ensures ColumnOf(hay, to) == ColumnOf(hay, at) + (to - at)
  {
    var before := LastNewline(hay[..at]);
    assert forall k :: at <= k < to ==> hay[..to][k] == hay[at..to][k - at];
    if before.Some? {
      LastNewlineIs(hay[..to], before.value);
    } else {
      assert forall k :: 0 <= k < at ==> hay[..to][k] == hay[..at][k];
      assert LastNewline(hay[..to]) == None;
    }
  }

  // ---- the report --------------------------------------------------------------------------

  datatype Span = Span(path: string, line: nat, column: nat, start: nat, len: nat)
  datatype Cut = Lines | Bytes | Time
  datatype Why = ByteCap | TimeCap | Matcher
  datatype Unlisted = Unlisted(path: string, from: nat, readTo: nat, why: Why)

  class Report {
    var spans: seq<Span>
    var filesScanned: nat
    var bytesScanned: nat
    var cut: Option<Cut>
    var unreadable: nat
    var matchesCut: nat
    var unconfirmed: Option<Unlisted>
    var work: nat

    constructor ()
      ensures spans == [] && filesScanned == 0 && bytesScanned == 0 && cut.None? && unreadable == 0
      ensures matchesCut == 0 && unconfirmed.None? && work == 0
    {
      spans, filesScanned, bytesScanned, cut, unreadable := [], 0, 0, None, 0;
      matchesCut, unconfirmed, work := 0, None, 0;
    }
  }

  /** How an occurrence of a file is listed. */
  function SpanOf(path: string, h: seq<byte>, hit: Hit): Span
    requires hit.start <= hit.end && hit.start <= |h|
  {
    Span(path, LineOf(h, hit.start), ColumnOf(h, hit.start), hit.start, Min(hit.end - hit.start, MAX_MATCH_BYTES))
  }

  predicate Inside(hits: seq<Hit>, h: seq<byte>) {
    forall k :: 0 <= k < |hits| ==> hits[k].start <= hits[k].end && hits[k].start <= |h|
  }

  function Listed(path: string, h: seq<byte>, hits: seq<Hit>): (r: seq<Span>)
    requires Inside(hits, h)
    ensures |r| == |hits|
  {
    seq(|hits|, k requires 0 <= k < |hits| => SpanOf(path, h, hits[k]))
  }

  function Shortened(hits: seq<Hit>): nat {
    if hits == [] then 0
    else Shortened(hits[..|hits| - 1]) +
         if hits[|hits| - 1].end > hits[|hits| - 1].start + MAX_MATCH_BYTES then 1 else 0
  }

  /** A span reads only the bytes before its start, so a file's beginning lists it alike. */
  lemma ListedAlike(path: string, a: seq<byte>, b: seq<byte>, hits: seq<Hit>)
    requires a <= b && Inside(hits, a)
    ensures Inside(hits, b) && Listed(path, a, hits) == Listed(path, b, hits)
  {
    forall k | 0 <= k < |hits|
      ensures SpanOf(path, a, hits[k]) == SpanOf(path, b, hits[k])
    {
      assert a[..hits[k].start] == b[..hits[k].start];
    }
  }

  /** The listing closure of one file's scan. */
  class Listing {
    const report: Report
    const position: Tracker
    const path: string
    const body: seq<byte>
    const maxLines: nat
    ghost const before: seq<Span>
    ghost const shortenedBefore: nat
    ghost var hits: seq<Hit>

    ghost predicate Valid()
      reads this, report, position
    {
      && Inside(hits, body)
      && position.Valid(body)
      && position.at == (if hits == [] then 0 else hits[|hits| - 1].start)
      && report.spans == before + Listed(path, body, hits)
      && report.matchesCut == shortenedBefore + Shortened(hits)
    }

    constructor (report: Report, path: string, body: seq<byte>, maxLines: nat)
      ensures Valid() && fresh(this) && fresh(position) && hits == []
      ensures this.report == report && this.path == path && this.body == body && this.maxLines == maxLines
      ensures before == report.spans && shortenedBefore == report.matchesCut
    {
      var tracker := new Tracker();
      this.report, this.path, this.body, this.maxLines, position := report, path, body, maxLines, tracker;
      before, shortenedBefore, hits := report.spans, report.matchesCut, [];
    }

    /** List one occurrence, or refuse it at the line cap. */
    method Emit(s: nat, e: nat) returns (stop: bool)
      requires Valid() && position.at <= s <= e <= |body|
      modifies this`hits, position, report`spans, report`cut, report`matchesCut
      ensures Valid()
      ensures stop == (old(|report.spans|) >= maxLines)
      ensures !stop ==> |report.spans| == old(|report.spans|) + 1
      ensures stop ==>
        report.cut == Some(Lines) && hits == old(hits) && unchanged(position) && report.spans == old(report.spans)
      ensures !stop ==> report.cut == old(report.cut) && hits == old(hits) + [Hit(s, e)]
    {
      hide LineOf, ColumnOf;
      if |report.spans| >= maxLines {
        report.cut := Some(Lines);
        return true;
      }
      var line, column := position.Advance(body, s);
      var hit := Hit(s, e);
      report.spans := report.spans + [Span(path, line, column, s, Min(e - s, MAX_MATCH_BYTES))];
      if e - s > MAX_MATCH_BYTES {
        report.matchesCut := report.matchesCut + 1;
      }
      assert Listed(path, body, hits + [hit]) == Listed(path, body, hits) + [SpanOf(path, body, hit)];
      assert (hits + [hit])[..|hits|] == hits;
      hits := hits + [hit];
      stop := false;
    }
  }

  // ---- matching one buffer -------------------------------------------------------------------

  datatype Outcome =
    | Complete
    | Stopped
    | Unconfirmed(from: nat)
    | Interrupted(from: nat)
    | Halt(from: nat)

  /** What the hits listed and the outcome say about one possible file. */
  ghost predicate OutcomeFor(t: Hir, h: seq<byte>, hits: seq<Hit>, outcome: Outcome) {
    var whole := WholeFile(t, h);
    && hits <= whole
    && match outcome
       case Complete => hits == whole
       case Stopped => |hits| < |whole|
       case Unconfirmed(from) => NoneBefore(whole, |hits|, from)
       case Interrupted(from) => NoneBefore(whole, |hits|, from)
       case Halt(from) => NoneBefore(whole, |hits|, from)
  }

  /** The occurrences past the first `listed` all start at or after `from`. */
  ghost predicate NoneBefore(whole: seq<Hit>, listed: nat, from: nat) {
    forall k :: listed <= k < |whole| ==> from <= whole[k].start
  }

  /** The bytes read do not decide an occurrence that starts at `s`. */
  ghost predicate OpenStart(t: Hir, s: nat, buf: Buffer) {
    if Proper(t) then OpenAt(t, s, buf.hay) else !ShapeOf(t).FinalAt(s, buf)
  }

  /** The next occurrence the bytes read hold, were they the file, is not decided by them:
    * nothing that could be listed is withheld. */
  ghost predicate NothingWithheld(t: Hir, buf: Buffer, hits: seq<Hit>) {
    var whole := WholeFile(t, buf.hay);
    |hits| < |whole| ==> OpenStart(t, whole[|hits|].start, buf)
  }

  /** Cutoff finality: whatever file the bytes read begin, what was listed is a prefix of its
    * occurrences and the outcome is right about the rest; and a list is left unconfirmed only
    * at a cutoff, from an undecided start, with nothing withheld. */
  ghost predicate OutcomeSound(t: Hir, buf: Buffer, hits: seq<Hit>, outcome: Outcome) {
    && (outcome.Unconfirmed? ==>
          buf.ending.Cutoff? && NothingWithheld(t, buf, hits) && OpenStart(t, outcome.from, buf))
    && forall h | Possible(buf, h) :: OutcomeFor(t, h, hits, outcome)
  }

  /** What the shape does not call final is open. */
  lemma NotFinalIsOpen(t: Hir, s: nat, buf: Buffer)
    requires buf.Valid() && !ShapeOf(t).FinalAt(s, buf)
    ensures OpenStart(t, s, buf)
  {
    hide ShapeOf, OpenAt, Proper;
    if Proper(t) { FinalExactly(t, s, buf); }
  }

  /** The frontier is itself open. */
  lemma FrontierIsOpen(t: Hir, p: nat, buf: Buffer)
    requires buf.Valid()
    ensures OpenStart(t, ShapeOf(t).Frontier(p, buf), buf)
  {
    NotFinalIsOpen(t, ShapeOf(t).Frontier(p, buf), buf);
  }

  /** Where the loop stands: what was listed, then the iteration from `p`. */
  ghost predicate Progress(t: Hir, buf: Buffer, hits: seq<Hit>, p: nat, last: Option<nat>) {
    forall h | Possible(buf, h) :: WholeFile(t, h) == hits + FindIter(t, h, p, last)
  }

  /** The iteration after `p` starts no occurrence before `from`. */
  lemma RestIsLate(t: Hir, buf: Buffer, hits: seq<Hit>, p: nat, last: Option<nat>, from: nat, h: seq<byte>)
    requires Progress(t, buf, hits, p, last) && Possible(buf, h)
    requires p > |h| ==> from <= p
    requires p <= |h| && Find(t, h, p).Some? ==> from <= Find(t, h, p).value.start
    ensures hits <= WholeFile(t, h) && NoneBefore(WholeFile(t, h), |hits|, from)
  {
    IterStartsLate(t, h, p, last, from);
  }

  lemma StoppedShort(t: Hir, buf: Buffer, hits: seq<Hit>, p: nat, last: Option<nat>, outcome: Outcome)
    requires Progress(t, buf, hits, p, last)
    requires outcome == Interrupted(p) || outcome == Halt(p)
    ensures OutcomeSound(t, buf, hits, outcome)
  {
    forall h | Possible(buf, h)
      ensures OutcomeFor(t, h, hits, outcome)
    {
      RestIsLate(t, buf, hits, p, last, p, h);
    }
  }

  lemma OpenWithholdsNothing(t: Hir, buf: Buffer, hits: seq<Hit>, p: nat, last: Option<nat>)
    requires buf.Valid() && Progress(t, buf, hits, p, last) && p <= |buf.hay| && StepSound(t, buf, p, Open)
    ensures NothingWithheld(t, buf, hits)
  {
    var whole, found := WholeFile(t, buf.hay), Find(t, buf.hay, p);
    assert Possible(buf, buf.hay);
    assert found.None? ==> FindIter(t, buf.hay, p, last) == [];
    if |hits| < |whole| && found.Some? {
      var next := whole[|hits|].start;
      RestIsLate(t, buf, hits, p, last, found.value.start, buf.hay);
      if ShapeOf(t).FinalAt(next, buf) { FinalBelow(ShapeOf(t), buf, next, found.value.start); }
      NotFinalIsOpen(t, next, buf);
    }
  }

  lemma OpenIsUnconfirmed(t: Hir, buf: Buffer, hits: seq<Hit>, p: nat, last: Option<nat>)
    requires buf.Valid() && Progress(t, buf, hits, p, last) && p <= |buf.hay| && StepSound(t, buf, p, Open)
    ensures OutcomeSound(t, buf, hits, Unconfirmed(ShapeOf(t).Frontier(p, buf)))
  {
    var from := ShapeOf(t).Frontier(p, buf);
    OpenWithholdsNothing(t, buf, hits, p, last);
    FrontierIsOpen(t, p, buf);
    forall h | Possible(buf, h)
      ensures OutcomeFor(t, h, hits, Unconfirmed(from))
    {
      RestIsLate(t, buf, hits, p, last, from, h);
    }
  }

  lemma PastTheEnd(t: Hir, buf: Buffer, hits: seq<Hit>, p: nat, last: Option<nat>)
    requires buf.Valid() && Progress(t, buf, hits, p, last) && p > |buf.hay|
    ensures OutcomeSound(t, buf, hits, if buf.ending.Eof? then Complete else Unconfirmed(p))
  {
    forall h | Possible(buf, h)
      ensures OutcomeFor(t, h, hits, if buf.ending.Eof? then Complete else Unconfirmed(p))
    {
      RestIsLate(t, buf, hits, p, last, p, h);
      assert buf.ending.Eof? ==> hits + [] == hits;
    }
    assert Possible(buf, buf.hay) && FindIter(t, buf.hay, p, last) == [];
    NotFinalIsOpen(t, p, buf);
  }

  lemma NoMoreIsComplete(t: Hir, buf: Buffer, hits: seq<Hit>, p: nat, last: Option<nat>)
    requires Progress(t, buf, hits, p, last) && p <= |buf.hay| && StepSound(t, buf, p, NoMore)
    ensures OutcomeSound(t, buf, hits, Complete)
  {
    forall h | Possible(buf, h)
      ensures OutcomeFor(t, h, hits, Complete)
    {
      assert FindIter(t, h, p, last) == [];
      assert hits + [] == hits;
    }
  }

  /** An empty match at the previous end is passed over. */
  lemma SkipProgress(t: Hir, buf: Buffer, hits: seq<Hit>, p: nat, last: Option<nat>, e: nat)
    requires Progress(t, buf, hits, p, last) && p <= |buf.hay| && StepSound(t, buf, p, Final(e, e))
    requires last == Some(e)
    ensures Progress(t, buf, hits, e + 1, last)
  {
    hide Find;
    forall h | Possible(buf, h)
      ensures FindIter(t, h, p, last) == FindIter(t, h, e + 1, last)
    {
    }
  }

  /** Any other final match is the next occurrence of every possible file. */
  lemma HitProgress(t: Hir, buf: Buffer, hits: seq<Hit>, p: nat, last: Option<nat>, s: nat, e: nat)
    requires Progress(t, buf, hits, p, last) && p <= |buf.hay| && StepSound(t, buf, p, Final(s, e))
    requires !(s == e && last == Some(e))
    ensures Progress(t, buf, hits + [Hit(s, e)], e, Some(e))
    ensures OutcomeSound(t, buf, hits, Stopped)
  {
    hide Find;
    forall h | Possible(buf, h)
      ensures WholeFile(t, h) == hits + [Hit(s, e)] + FindIter(t, h, e, Some(e))
    {
      assert FindIter(t, h, p, last) == [Hit(s, e)] + FindIter(t, h, e, Some(e));
    }
  }

  /** The lazy DFA met a quit state searching from `p`; the literal engines never do. */
  ghost predicate EngineQuit<S>(engine: Engine<S>, hay: seq<byte>, p: nat) {
    engine.LazyDfa? && p <= |hay| && GivesUp(engine.re, hay, p)
  }

  datatype Turn = Occurrence(start: nat, end: nat) | Over(outcome: Outcome)

  /** Where an iteration resumes after what it listed: at the last end, or one byte on when an
    * empty match there was passed over. */
  ghost predicate Resumes(hits: seq<Hit>, p: nat, last: Option<nat>) {
    if hits == [] then p == 0 && last.None?
    else
      var e := hits[|hits| - 1].end;
      last == Some(e) && (p == e || p == e + 1)
  }

  /** The automaton had not decided the search that would have come next: nothing it had
    * decided is withheld either. */
  ghost predicate Undecided<S>(engine: Engine<S>, hay: seq<byte>, hits: seq<Hit>) {
    engine.LazyDfa? ==>
      exists p: nat, last :: Resumes(hits, p, last) && (p <= |hay| ==> Survives(engine.re.forward, hay, p))
  }

  /** One turn of the loop: the next final occurrence, or what ends the list here. */
  method NextFinal<S(!new)>(
    engine: Engine<S>, shape: Shape, buf: Buffer, p: nat, work: Work, ghost t: Hir, ghost hits: seq<Hit>,
    ghost last: Option<nat>)
    returns (turn: Turn)
    requires SearchesFor(engine, t) && shape == ShapeOf(t) && buf.Valid() && work.Valid()
    requires Progress(t, buf, hits, p, last) && Resumes(hits, p, last)
    modifies work, work.deadline
    ensures work.Valid()
    ensures work.deadline.fired == (old(work.deadline.fired) || turn == Over(Interrupted(p)))
    ensures old(work.deadline.fired) && p <= |buf.hay| ==> turn == Over(Interrupted(p))
    ensures turn.Over? ==>
      && OutcomeSound(t, buf, hits, turn.outcome) && !turn.outcome.Stopped?
      && (turn.outcome.Interrupted? ==> turn.outcome.from == p)
      && (turn.outcome.Halt? ==> EngineQuit(engine, buf.hay, turn.outcome.from))
      && (turn.outcome.Unconfirmed? ==> Undecided(engine, buf.hay, hits))
    ensures turn.Occurrence? ==> p <= |buf.hay| && StepSound(t, buf, p, Final(turn.start, turn.end))
  {
    if p > |buf.hay| {
      PastTheEnd(t, buf, hits, p, last);
      return Over(if buf.ending.Eof? then Complete else Unconfirmed(p));
    }
    var late := work.Check();
    if late {
      StoppedShort(t, buf, hits, p, last, Interrupted(p));
      return Over(Interrupted(p));
    }
    var next := Step(engine, shape, buf, p, work, t);
    match next {
      case Final(s, e) =>
        return Occurrence(s, e);
      case NoMore =>
        NoMoreIsComplete(t, buf, hits, p, last);
        return Over(Complete);
      case Open =>
        OpenIsUnconfirmed(t, buf, hits, p, last);
        return Over(Unconfirmed(shape.Frontier(p, buf)));
      case OutOfTime =>
        StoppedShort(t, buf, hits, p, last, Interrupted(p));
        return Over(Interrupted(p));
      case Failed =>
        StoppedShort(t, buf, hits, p, last, Halt(p));
        return Over(Halt(p));
    }
  }

  /** List a final occurrence and move past it, or pass over an empty match at `last`. */
  method TakeHit(buf: Buffer, p: nat, last: Option<nat>, s: nat, e: nat, list: Listing, ghost t: Hir)
    returns (stop: bool, q: nat, end: Option<nat>)
    requires list.Valid() && list.body == buf.hay && list.position.at <= p <= |buf.hay|
    requires Progress(t, buf, list.hits, p, last) && Resumes(list.hits, p, last) && StepSound(t, buf, p, Final(s, e))
    modifies list`hits, list.position, list.report`spans, list.report`cut, list.report`matchesCut
    ensures list.Valid()
    ensures stop ==>
      list.report.cut == Some(Lines) && OutcomeSound(t, buf, list.hits, Stopped) && |list.report.spans| >= list.maxLines
    ensures |list.report.spans| <= Max(old(|list.report.spans|), list.maxLines)
    ensures !stop ==> list.report.cut == old(list.report.cut) && Progress(t, buf, list.hits, q, end)
    ensures !stop ==> p <= q <= |buf.hay| + 1 && list.position.at <= q
    ensures !stop ==> Resumes(list.hits, q, end)
    ensures !stop ==> p < q || (end == Some(q) && last != Some(p))
  {
    hide Progress, OutcomeSound, LineOf, ColumnOf, Shortened, Listed;
    if s == e && last == Some(e) {
      SkipProgress(t, buf, list.hits, p, last, e);
      return false, e + 1, last;
    }
    HitProgress(t, buf, list.hits, p, last, s, e);
    stop := list.Emit(s, e);
    q, end := e, Some(e);
  }

  /** Iterate over the buffer, listing an occurrence only once it is final. */
  method MatchBuffer<S(!new)>(
    engine: Engine<S>, shape: Shape, hay: seq<byte>, ending: Ending, work: Work, list: Listing, ghost t: Hir)
    returns (outcome: Outcome)
    requires SearchesFor(engine, t) && shape == ShapeOf(t) && |hay| <= ISIZE_MAX
    requires work.Valid() && list.Valid() && list.hits == [] && list.body == hay
    modifies work, work.deadline, list`hits, list.position, list.report`spans, list.report`cut, list.report`matchesCut
    ensures list.Valid()
    ensures OutcomeSound(t, Buffer(hay, ending, LastNewline(hay)), list.hits, outcome)
    ensures list.report.cut == if outcome.Stopped? then Some(Lines) else old(list.report.cut)
    ensures work.deadline.fired == outcome.Interrupted? && (old(work.deadline.fired) ==> outcome.Interrupted?)
    ensures outcome.Halt? ==> EngineQuit(engine, hay, outcome.from)
    ensures outcome.Unconfirmed? ==> Undecided(engine, hay, list.hits)
    ensures outcome.Stopped? ==> |list.report.spans| >= list.maxLines
    ensures |list.report.spans| <= Max(old(|list.report.spans|), list.maxLines)
  {
    hide StepSound, OutcomeSound, Undecided, EngineQuit, SearchesFor, ShapeOf, Shortened, Listed, LineOf, ColumnOf;
    hide LastNewline;
    var buf := Buffer(hay, ending, LastNewline(hay));
    var p := 0;
    var last: Option<nat> := None;
    while true
      invariant work.Valid() && list.Valid()
      invariant work.deadline.fired == old(work.deadline.fired) && (work.deadline.fired ==> p == 0)
      invariant Progress(t, buf, list.hits, p, last) && Resumes(list.hits, p, last)
      invariant list.position.at <= p <= |hay| + 1
      invariant list.report.cut == old(list.report.cut)
      invariant |list.report.spans| <= Max(old(|list.report.spans|), list.maxLines)
      decreases |hay| + 1 - p, if last == Some(p) then 0 else 1
    {
      var turn := NextFinal(engine, shape, buf, p, work, t, list.hits, last);
      if turn.Over? { return turn.outcome; }
      var stop;
      stop, p, last := TakeHit(buf, p, last, turn.start, turn.end, list, t);
      if stop { return Stopped; }
    }
  }

  // ---- reading files under the caps ----------------------------------------------------------

  datatype Limits = Limits(maxLines: nat, maxBytes: nat, timeoutMs: nat)

  /** One open file. `content` is what the descriptor holds, `lenHint` the length it had when
    * it was opened, `slice` the bytes per positional read. */
  class OpenFile {
    const path: string
    const content: seq<byte>
    const lenHint: nat
    const slice: nat
    var read: nat
    /** A read has failed. */
    ghost var failed: bool

    constructor (path: string, content: seq<byte>, lenHint: nat, slice: nat)
      ensures this.path == path && this.content == content && this.lenHint == lenHint && this.slice == slice &&
        read == 0 && !failed
    {
      this.path, this.content, this.lenHint, this.slice, read := path, content, lenHint, slice, 0;
      failed := false;
    }

    /** A positional read: some of the bytes at the offset, none only at the end, or failure. */
    method ReadAt(want: nat) returns (got: Option<seq<byte>>)
      requires read <= |content|
      modifies this`failed
      ensures failed == (old(failed) || got.None?)
      ensures got.Some? ==>
        && |got.value| <= want && read + |got.value| <= |content|
        && got.value == content[read..read + |got.value|]
        && (got.value == [] ==> want == 0 || read == |content|)
    {
      if * {
        failed := true;
        return None;
      }
      var most := Min(want, |content| - read);
      var k: nat :| k <= most && (k == 0 ==> most == 0);
      got := Some(content[read..read + k]);
    }
  }

  /** Read the file into one buffer of at most `budget` bytes. */
  method Fill(file: OpenFile, budget: nat, report: Report, deadline: Deadline)
    returns (left: nat, body: Option<seq<byte>>, eof: bool)
    requires file.read == 0 && file.slice >= 1 && !file.failed
    modifies file, report`bytesScanned, report`cut, deadline
    ensures left + report.bytesScanned == budget + old(report.bytesScanned)
    ensures report.cut == old(report.cut) || (report.cut == Some(Time) && deadline.fired)
    ensures body.None? ==> report.cut == old(report.cut)
    ensures old(report.cut.None?) ==> deadline.fired == (old(deadline.fired) || report.cut == Some(Time))
    ensures body.None? <==> file.failed
    ensures body.Some? ==> |body.value| + left == budget && body.value <= file.content
    ensures body.Some? && eof ==> body.value == file.content
    ensures body.Some? && !eof ==> left == 0 || report.cut == Some(Time)
  {
    left, eof := budget, false;
    var got: seq<byte> := [];
    var spare: nat := *;
    var capacity := Min(budget, file.lenHint) + spare;
    while true
      invariant file.read == |got| <= |file.content| && got == file.content[..|got|]
      invariant left + report.bytesScanned == budget + old(report.bytesScanned)
      invariant |got| + left == budget && report.cut == old(report.cut) && !file.failed
      invariant deadline.fired == old(deadline.fired)
      decreases |file.content| - |got|
    {
      var want := Min(left, file.slice);
      if want == 0 {
        var known: bool := *;
        return left, Some(got), known && |file.content| <= file.read;
      }
      var part: Option<seq<byte>>;
      if |got| < capacity {
        part := file.ReadAt(Min(want, capacity - |got|));
      } else {
        part := file.ReadAt(1);
        if part.Some? && part.value != [] {
          capacity := |got| + Min(Max(want, |got|), left);
        }
      }
      if part.None? { return left, None, false; }
      if part.value == [] { return left, Some(got), true; }
      got := got + part.value;
      file.read := file.read + |part.value|;
      left := left - |part.value|;
      report.bytesScanned := report.bytesScanned + |part.value|;
      var late := deadline.Expired();
      if late {
        report.cut := Some(Time);
        return left, Some(got), false;
      }
    }
  }

  /** What one file's scan left in the report, `hits` being what it listed of `whole`. */
  ghost predicate Honest(whole: seq<Hit>, hits: seq<Hit>, cut: Option<Cut>, unconfirmed: Option<Unlisted>, path: string)
  {
    && hits <= whole
    && (unconfirmed.None? && cut != Some(Lines) ==> hits == whole)
    && (unconfirmed.Some? ==>
          && unconfirmed.value.path == path
          && NoneBefore(whole, |hits|, unconfirmed.value.from)
          && (unconfirmed.value.why.ByteCap? ==> cut == Some(Bytes))
          && (unconfirmed.value.why.TimeCap? ==> cut == Some(Time)))
  }

  /** The byte cap left a file's list open after `hay`: nothing the bytes read decide is
    * withheld, and the start it is open from is not decided. */
  ghost predicate LeftOpen(t: Hir, hay: seq<byte>, hits: seq<Hit>, from: nat) {
    var buf := Buffer(hay, Cutoff, LastNewline(hay));
    NothingWithheld(t, buf, hits) && OpenStart(t, from, buf)
  }

  /** What an `unconfirmed` record says of the first `readTo` bytes of a file. */
  ghost predicate Explained<S>(engine: Engine<S>, t: Hir, content: seq<byte>, hits: seq<Hit>, u: Unlisted) {
    && u.readTo <= |content|
    && (u.why.ByteCap? ==> LeftOpen(t, content[..u.readTo], hits, u.from))
    && (u.why.Matcher? ==> EngineQuit(engine, content[..u.readTo], u.from))
  }

  /** Match the bytes read of a file that holds `content`, listing what is final. */
  method MatchFile<S(!new)>(
    engine: Engine<S>, shape: Shape, path: string, hay: seq<byte>, eof: bool, maxLines: nat, report: Report,
    deadline: Deadline, ghost t: Hir, ghost content: seq<byte>)
    returns (outcome: Outcome, ghost hits: seq<Hit>)
    requires SearchesFor(engine, t) && shape == ShapeOf(t) && |hay| <= ISIZE_MAX
    requires hay <= content && (eof ==> hay == content)
    modifies report`spans, report`cut, report`matchesCut, report`work, deadline
    ensures OutcomeFor(t, content, hits, outcome)
    ensures outcome.Unconfirmed? ==> !eof && LeftOpen(t, hay, hits, outcome.from)
    ensures Inside(hits, content) && report.spans == old(report.spans) + Listed(path, content, hits)
    ensures report.matchesCut == old(report.matchesCut) + Shortened(hits)
    ensures report.cut == if outcome.Stopped? then Some(Lines) else old(report.cut)
    ensures deadline.fired == outcome.Interrupted? && (old(deadline.fired) ==> outcome.Interrupted?)
    ensures outcome.Halt? ==> EngineQuit(engine, hay, outcome.from)
    ensures outcome.Stopped? ==> |report.spans| >= maxLines
    ensures |report.spans| <= Max(old(|report.spans|), maxLines)
  {
    var ending := if eof then Eof else Cutoff;
    var work := new Work(deadline);
    var list := new Listing(report, path, hay, maxLines);
    outcome := MatchBuffer(engine, shape, hay, ending, work, list, t);
    hits := list.hits;
    assert Possible(Buffer(hay, ending, LastNewline(hay)), content);
    ListedAlike(path, hay, content, hits);
    report.work := report.work + work.units;
  }

  /** The record an outcome leaves in the report, whose `cut` it explains. */
  ghost predicate Records(outcome: Outcome, cut: Option<Cut>, u: Option<Unlisted>, path: string) {
    match outcome
    case Complete => u.None?
    case Stopped => u.None? && cut == Some(Lines)
    case _ =>
      && u.Some? && u.value.path == path && u.value.from == outcome.from
      && (u.value.why.ByteCap? ==> cut == Some(Bytes)) && (u.value.why.TimeCap? ==> cut == Some(Time))
  }

  lemma RecordIsHonest(t: Hir, content: seq<byte>, hits: seq<Hit>, outcome: Outcome, cut: Option<Cut>,
    u: Option<Unlisted>, path: string)
    requires OutcomeFor(t, content, hits, outcome) && Records(outcome, cut, u, path)
    ensures Honest(WholeFile(t, content), hits, cut, u, path)
  {
  }

  /** Account for one file's outcome; false once the scan is over. */
  method Account(
    outcome: Outcome, path: string, readTo: nat, eof: bool, moreFiles: bool, maxBytes: nat, report: Report)
    returns (more: bool)
    requires report.unconfirmed.None? && (outcome.Stopped? ==> report.cut == Some(Lines))
    requires outcome.Unconfirmed? ==>
      !eof && (report.cut == Some(Time) || (report.cut.None? && report.bytesScanned >= maxBytes))
    modifies report`cut, report`unconfirmed
    ensures Records(outcome, report.cut, report.unconfirmed, path)
    ensures report.unconfirmed.Some? ==>
      && report.unconfirmed.value.readTo == readTo
      && (report.unconfirmed.value.why.ByteCap? ==> outcome.Unconfirmed?)
      && (report.unconfirmed.value.why.Matcher? ==> outcome.Halt?)
    ensures more == (report.cut.None? && report.unconfirmed.None?)
    ensures report.cut == old(report.cut) ||
      if outcome.Interrupted? then report.cut == Some(Time)
      else report.cut == Some(Bytes) && report.bytesScanned >= maxBytes && (moreFiles || report.unconfirmed.Some?)
    ensures outcome.Interrupted? ==> report.cut == Some(Time)
    ensures more && moreFiles ==> report.bytesScanned < maxBytes
  {
    var decided := eof || outcome.Complete?;
    match outcome {
      case Complete =>
      case Stopped => return false;
      case Unconfirmed(from) =>
        report.unconfirmed := Some(Unlisted(path, from, readTo, if report.cut == Some(Time) then TimeCap else ByteCap));
      case Interrupted(from) =>
        report.cut := Some(Time);
        report.unconfirmed := Some(Unlisted(path, from, readTo, TimeCap));
      case Halt(from) =>
        report.unconfirmed := Some(Unlisted(path, from, readTo, Matcher));
        return false;
    }
    if report.cut.None? && (!decided || moreFiles) && report.bytesScanned >= maxBytes {
      report.cut := Some(Bytes);
    }
    more := report.cut.None?;
  }

  /** Match one file, appending to the report; false once the scan is over. */
  method Scan<S(!new)>(
    file: OpenFile, engine: Engine<S>, shape: Shape, limits: Limits, budget: nat, report: Report, deadline: Deadline,
    moreFiles: bool, ghost t: Hir)
    returns (left: nat, more: bool, ghost hits: Option<seq<Hit>>)
    requires SearchesFor(engine, t) && shape == ShapeOf(t)
    requires file.read == 0 && file.slice >= 1 && !file.failed && limits.maxBytes <= ISIZE_MAX
    requires budget + report.bytesScanned == limits.maxBytes
    requires report.cut.None? && report.unconfirmed.None?
    modifies file, report, deadline
    ensures left + report.bytesScanned == limits.maxBytes
    ensures report.filesScanned == old(report.filesScanned)
    ensures hits.None? <==> file.failed
    ensures hits.None? ==>
      && more && report.spans == old(report.spans) && report.unreadable == old(report.unreadable) + 1
      && report.matchesCut == old(report.matchesCut) && report.cut.None? && report.unconfirmed.None?
    ensures hits.Some? ==>
      && report.unreadable == old(report.unreadable)
      && report.matchesCut == old(report.matchesCut) + Shortened(hits.value)
      && Inside(hits.value, file.content)
      && report.spans == old(report.spans) + Listed(file.path, file.content, hits.value)
      && Honest(WholeFile(t, file.content), hits.value, report.cut, report.unconfirmed, file.path)
    ensures more ==> report.cut.None? && report.unconfirmed.None?
    ensures !more ==> report.cut.Some? || report.unconfirmed.Some?
    ensures report.cut == Some(Lines) ==> |report.spans| >= limits.maxLines
    ensures report.cut == Some(Bytes) ==> left == 0 && (moreFiles || report.unconfirmed.Some?)
    ensures !old(deadline.fired) ==> deadline.fired == (report.cut == Some(Time))
    ensures hits.Some? && more && moreFiles ==> left > 0
    ensures |report.spans| <= Max(old(|report.spans|), limits.maxLines)
    ensures report.unconfirmed.Some? ==>
      && report.unconfirmed.value.readTo == report.bytesScanned - old(report.bytesScanned)
      && hits.Some? && Explained(engine, t, file.content, hits.value, report.unconfirmed.value)
  {
    hide WholeFile, Listed, Shortened, EngineQuit, SearchesFor, ShapeOf, NoneBefore, Inside, LeftOpen, Honest,
      OutcomeFor;
    hide Records;
    var body, eof;
    left, body, eof := Fill(file, budget, report, deadline);
    if body.None? {
      report.unreadable := report.unreadable + 1;
      return left, true, None;
    }
    var readTo := |body.value|;
    assert body.value == file.content[..readTo];
    ghost var listed;
    var outcome;
    outcome, listed := MatchFile(engine, shape, file.path, body.value, eof, limits.maxLines, report, deadline, t,
      file.content);
    hits := Some(listed);
    more := Account(outcome, file.path, readTo, eof, moreFiles, limits.maxBytes, report);
    RecordIsHonest(t, file.content, listed, outcome, report.cut, report.unconfirmed, file.path);
  }

  // ---- a whole scan ------------------------------------------------------------------------------

  /** A listed path as it opens: a file, or one the lane does not read. */
  datatype Source = Readable(path: string, content: seq<byte>, lenHint: nat, slice: nat) | Lost

  /** What the scan listed of each file it came to; None for a file it could not read. */
  ghost predicate Answers(t: Hir, files: seq<Source>, listed: seq<Option<seq<Hit>>>) {
    && |listed| <= |files|
    && forall k :: 0 <= k < |listed| ==> listed[k].Some? ==>
         && files[k].Readable?
         && Inside(listed[k].value, files[k].content)
         && listed[k].value <= WholeFile(t, files[k].content)
  }

  ghost predicate CompleteBefore(t: Hir, files: seq<Source>, listed: seq<Option<seq<Hit>>>, n: nat)
    requires Answers(t, files, listed) && n <= |listed|
  {
    forall k :: 0 <= k < n ==> listed[k].Some? ==> listed[k].value == WholeFile(t, files[k].content)
  }

  /** The spans of the files' lists, file after file. */
  ghost function Rendered(t: Hir, files: seq<Source>, listed: seq<Option<seq<Hit>>>): seq<Span>
    requires Answers(t, files, listed)
  {
    if listed == [] then []
    else
      var k := |listed| - 1;
      Rendered(t, files, listed[..k]) +
      if listed[k].Some? then Listed(files[k].path, files[k].content, listed[k].value) else []
  }

  ghost function Unread(listed: seq<Option<seq<Hit>>>): nat {
    if listed == [] then 0
    else Unread(listed[..|listed| - 1]) + if listed[|listed| - 1].None? then 1 else 0
  }

  ghost function Cuts(listed: seq<Option<seq<Hit>>>): nat {
    if listed == [] then 0
    else
      var last := listed[|listed| - 1];
      Cuts(listed[..|listed| - 1]) + if last.Some? then Shortened(last.value) else 0
  }

  ghost function Opened(files: seq<Source>): nat {
    if files == [] then 0
    else Opened(files[..|files| - 1]) + if files[|files| - 1].Readable? then 1 else 0
  }

  lemma NothingListed(t: Hir, files: seq<Source>)
    ensures Answers(t, files, []) && Rendered(t, files, []) == [] && Unread([]) == Cuts([]) == Opened(files[..0]) == 0
  {
  }

  /** What one more file adds. */
  lemma OneMore(t: Hir, files: seq<Source>, listed: seq<Option<seq<Hit>>>, hits: Option<seq<Hit>>)
    requires Answers(t, files, listed) && |listed| < |files|
    requires hits.Some? ==>
      && files[|listed|].Readable? && Inside(hits.value, files[|listed|].content)
      && hits.value <= WholeFile(t, files[|listed|].content)
    ensures Answers(t, files, listed + [hits])
    ensures Rendered(t, files, listed + [hits]) == Rendered(t, files, listed) +
      if hits.Some? then Listed(files[|listed|].path, files[|listed|].content, hits.value) else []
  {
    hide WholeFile, Listed, Inside;
    assert (listed + [hits])[..|listed|] == listed;
  }

  lemma OneMoreCounted(files: seq<Source>, listed: seq<Option<seq<Hit>>>, hits: Option<seq<Hit>>)
    requires |listed| < |files|
    ensures Unread(listed + [hits]) == Unread(listed) + if hits.None? then 1 else 0
    ensures Cuts(listed + [hits]) == Cuts(listed) + if hits.Some? then Shortened(hits.value) else 0
    ensures Opened(files[..|listed| + 1]) == Opened(files[..|listed|]) + if files[|listed|].Readable? then 1 else 0
  {
    hide Shortened;
    assert (listed + [hits])[..|listed|] == listed;
    assert files[..|listed| + 1][..|listed|] == files[..|listed|];
  }

  lemma OneMoreComplete(t: Hir, files: seq<Source>, listed: seq<Option<seq<Hit>>>, hits: Option<seq<Hit>>)
    requires Answers(t, files, listed) && Answers(t, files, listed + [hits])
    requires CompleteBefore(t, files, listed, |listed|)
    ensures CompleteBefore(t, files, listed + [hits], |listed|)
    ensures (hits.Some? ==> hits.value == WholeFile(t, files[|listed|].content)) ==>
      CompleteBefore(t, files, listed + [hits], |listed| + 1)
  {
  }

  /** An honest account of a file gives a prefix of its occurrences, and all of them when
    * nothing was cut or left unconfirmed. */
  lemma HonestIsComplete(
    t: Hir, source: Source, hits: Option<seq<Hit>>, cut: Option<Cut>, unconfirmed: Option<Unlisted>)
    requires hits.Some? ==>
      source.Readable? && Honest(WholeFile(t, source.content), hits.value, cut, unconfirmed, source.path)
    ensures hits.Some? ==> hits.value <= WholeFile(t, source.content)
    ensures hits.Some? && cut.None? && unconfirmed.None? ==> hits.value == WholeFile(t, source.content)
  {
  }

  /** Open and scan one listed path. */
  method ScanSource<S(!new)>(
    engine: Engine<S>, shape: Shape, source: Source, limits: Limits, budget: nat, report: Report, deadline: Deadline,
    moreFiles: bool, ghost t: Hir)
    returns (left: nat, more: bool, ghost hits: Option<seq<Hit>>)
    requires SearchesFor(engine, t) && shape == ShapeOf(t) && limits.maxBytes <= ISIZE_MAX
    requires source.Readable? ==> source.slice >= 1
    requires budget + report.bytesScanned == limits.maxBytes
    requires report.cut.None? && report.unconfirmed.None?
    modifies report, deadline
    ensures left + report.bytesScanned == limits.maxBytes
    ensures hits.None? ==>
      && more && report.spans == old(report.spans) && report.unreadable == old(report.unreadable) + 1
      && report.matchesCut == old(report.matchesCut) && report.cut.None? && report.unconfirmed.None?
    ensures hits.Some? ==>
      && report.unreadable == old(report.unreadable)
      && report.matchesCut == old(report.matchesCut) + Shortened(hits.value)
      && source.Readable? && Inside(hits.value, source.content)
      && report.spans == old(report.spans) + Listed(source.path, source.content, hits.value)
      && Honest(WholeFile(t, source.content), hits.value, report.cut, report.unconfirmed, source.path)
    ensures report.unconfirmed.Some? ==>
      && report.unconfirmed.value.readTo == report.bytesScanned - old(report.bytesScanned)
      && hits.Some? && Explained(engine, t, source.content, hits.value, report.unconfirmed.value)
    ensures more == (report.cut.None? && report.unconfirmed.None?)
    ensures report.filesScanned == old(report.filesScanned) + if source.Readable? then 1 else 0
    ensures report.cut == Some(Lines) ==> |report.spans| >= limits.maxLines
    ensures report.cut == Some(Bytes) ==> left == 0 && (moreFiles || report.unconfirmed.Some?)
    ensures !old(deadline.fired) ==> deadline.fired == (report.cut == Some(Time))
    ensures hits.Some? && more && moreFiles ==> left > 0
    ensures |report.spans| <= Max(old(|report.spans|), limits.maxLines)
  {
    match source {
      case Lost =>
        report.unreadable := report.unreadable + 1;
        return budget, true, None;
      case Readable(path, content, lenHint, slice) =>
        var file := new OpenFile(path, content, lenHint, slice);
        left, more, hits := Scan(file, engine, shape, limits, budget, report, deadline, moreFiles, t);
        report.filesScanned := report.filesScanned + 1;
    }
  }

  /** Scan the files in order until a cap or a matcher failure ends it. A partial answer never
    * reads as complete: with no cut and no `unconfirmed` record every file was come to and
    * every file read is listed in full. */
  method ScanPaths<S(!new)>(
    engine: Engine<S>, shape: Shape, files: seq<Source>, limits: Limits, deadline: Deadline, ghost t: Hir)
    returns (report: Report, ghost listed: seq<Option<seq<Hit>>>)
    requires SearchesFor(engine, t) && shape == ShapeOf(t) && limits.maxBytes <= ISIZE_MAX
    requires forall k :: 0 <= k < |files| ==> files[k].Readable? ==> files[k].slice >= 1
    modifies deadline
    ensures fresh(report) && report.bytesScanned <= limits.maxBytes && |report.spans| <= limits.maxLines
    ensures report.cut == Some(Lines) ==> |report.spans| == limits.maxLines
    ensures report.cut == Some(Bytes) ==>
      report.bytesScanned == limits.maxBytes && (|listed| < |files| || report.unconfirmed.Some?)
    ensures !old(deadline.fired) ==> deadline.fired == (report.cut == Some(Time))
    ensures Answers(t, files, listed) && report.spans == Rendered(t, files, listed)
    ensures report.unreadable == Unread(listed) && report.matchesCut == Cuts(listed)
    ensures report.filesScanned == Opened(files[..|listed|])
    ensures listed != [] ==> CompleteBefore(t, files, listed, |listed| - 1)
    ensures report.cut.None? && report.unconfirmed.None? ==>
      |listed| == |files| && CompleteBefore(t, files, listed, |files|)
    ensures report.unconfirmed.Some? ==>
      && listed != [] && listed[|listed| - 1].Some?
      && Honest(WholeFile(t, files[|listed| - 1].content), listed[|listed| - 1].value, report.cut, report.unconfirmed,
        files[|listed| - 1].path)
      && Explained(engine, t, files[|listed| - 1].content, listed[|listed| - 1].value, report.unconfirmed.value)
  {
    hide WholeFile, Listed, SearchesFor, ShapeOf, Inside, Honest, Explained, Rendered, Unread, Cuts, Opened;
    report := new Report();
    listed := [];
    NothingListed(t, files);
    var budget: nat := limits.maxBytes;
    var k := 0;
    while k < |files|
      invariant fresh(report) && 0 <= k == |listed| <= |files|
      invariant budget + report.bytesScanned == limits.maxBytes
      invariant !old(deadline.fired) ==> !deadline.fired
      invariant report.cut.None? && report.unconfirmed.None? && |report.spans| <= limits.maxLines
      invariant Answers(t, files, listed) && CompleteBefore(t, files, listed, k)
      invariant report.spans == Rendered(t, files, listed) && report.unreadable == Unread(listed)
      invariant report.matchesCut == Cuts(listed) && report.filesScanned == Opened(files[..k])
    {
      var more;
      ghost var hits;
      budget, more, hits := ScanSource(engine, shape, files[k], limits, budget, report, deadline, k + 1 < |files|, t);
      HonestIsComplete(t, files[k], hits, report.cut, report.unconfirmed);
      OneMore(t, files, listed, hits);
      OneMoreCounted(files, listed, hits);
      OneMoreComplete(t, files, listed, hits);
      listed := listed + [hits];
      k := k + 1;
      if !more { return; }
    }
  }
}
