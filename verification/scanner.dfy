/** One search step over a buffer, and whether its answer is the whole file's. */
module Scanner {
  import opened Base
  import opened Pattern
  import opened Shapes

  const CHUNK_BYTES: nat := 64 * 1024
  const SCAN_STEP: nat := 1024

  // ---- deadline ---------------------------------------------------------------------

  /** `Wall(passed)`: whether the clock is past the cap at the k-th check. */
  datatype Clock = Wall(passed: nat -> bool) | Never | After(n: nat)

  function Fires(clock: Clock, check: nat): bool {
    match clock
    case Wall(passed) => passed(check)
    case Never => false
    case After(n) => check > n
  }

  class Deadline {
    const clock: Clock
    var checks: nat
    var fired: bool

    constructor (clock: Clock)
      ensures this.clock == clock && checks == 0 && !fired
    {
      this.clock := clock;
      checks, fired := 0, false;
    }

    /** True from the first check that finds the deadline passed. */
    method Expired() returns (b: bool)
      modifies this
      ensures checks == old(checks) + 1
      ensures b == fired == (old(fired) || Fires(clock, checks))
    {
      checks := checks + 1;
      fired := fired || Fires(clock, checks);
      b := fired;
    }
  }

  /** The match phase's view of the deadline. */
  class Work {
    const deadline: Deadline
    var units: nat
    var untilCheck: nat

    ghost predicate Valid()
      reads this
    {
      0 < untilCheck <= SCAN_STEP
    }

    constructor (deadline: Deadline)
      ensures Valid() && this.deadline == deadline && units == 0
    {
      this.deadline := deadline;
      units, untilCheck := 0, SCAN_STEP;
    }

    /** Count one transition; the deadline is consulted every `SCAN_STEP` of them. */
    method Tick() returns (b: bool)
      requires Valid()
      modifies this, deadline
      ensures Valid() && units == old(units) + 1
      ensures untilCheck == if old(untilCheck) == 1 then SCAN_STEP else old(untilCheck) - 1
      ensures deadline.checks == old(deadline.checks) + (if old(untilCheck) == 1 then 1 else 0)
      ensures old(untilCheck) == 1 ==> b == deadline.fired
      ensures deadline.fired == (old(deadline.fired) || b)
    {
      units := units + 1;
      untilCheck := untilCheck - 1;
      if untilCheck > 0 {
        return false;
      }
      untilCheck := SCAN_STEP;
      b := deadline.Expired();
    }

    method Check() returns (b: bool)
      requires Valid()
      modifies deadline
      ensures b == deadline.fired && (old(deadline.fired) ==> b)
    {
      b := deadline.Expired();
    }
  }

  // ---- what a step may answer -----------------------------------------------------------

  datatype Next =
    | Final(start: nat, end: nat)  // whole-file matching reports exactly this next
    | NoMore                       // no occurrence starts at or after the search start
    | Open                         // the next occurrence depends on bytes not read
    | OutOfTime                  // the deadline fired inside the step
    | Failed                       // the engine failed

  /** `h` is a file the bytes read can be the beginning of: itself at the end of the file,
    * any extension at a cutoff. */
  ghost predicate Possible(buf: Buffer, h: seq<byte>) {
    buf.hay <= h && (buf.ending.Eof? ==> h == buf.hay)
  }

  /** `next` is right about every possible file, and `Open` withholds no candidate the shape
    * calls final. */
  ghost predicate StepSound(t: Hir, buf: Buffer, p: nat, next: Next)
    requires p <= |buf.hay|
  {
    match next
    case Final(s, e) =>
      && p <= s <= e <= |buf.hay|
      && forall h | Possible(buf, h) :: Find(t, h, p) == Some(Hit(s, e))
    case NoMore => forall h | Possible(buf, h) :: Find(t, h, p) == None
    case Open =>
      && buf.ending.Cutoff?
      && (Find(t, buf.hay, p).Some? ==> !ShapeOf(t).FinalAt(Find(t, buf.hay, p).value.start, buf))
      && forall h | Possible(buf, h) ::
           Find(t, h, p).Some? ==> ShapeOf(t).Frontier(p, buf) <= Find(t, h, p).value.start
    case OutOfTime => true
    case Failed => true
  }

  /** The verdict on the answer `found` of a complete search of the bytes read. */
  function Verdict(shape: Shape, buf: Buffer, found: Option<Hit>): Next {
    match found
    case None => if buf.ending.Eof? then NoMore else Open
    case Some(hit) =>
      if buf.ending.Eof? || shape.FinalAt(hit.start, buf) then Final(hit.start, hit.end) else Open
  }

  lemma VerdictSound(t: Hir, buf: Buffer, p: nat)
    requires buf.Valid() && p <= |buf.hay|
    ensures StepSound(t, buf, p, Verdict(ShapeOf(t), buf, Find(t, buf.hay, p)))
  {
    var found := Find(t, buf.hay, p);
    if buf.ending.Cutoff? {
      forall h | Possible(buf, h)
        ensures found.Some? && ShapeOf(t).FinalAt(found.value.start, buf) ==> Find(t, h, p) == found
        ensures !(found.Some? && ShapeOf(t).FinalAt(found.value.start, buf)) && Find(t, h, p).Some? ==>
          ShapeOf(t).Frontier(p, buf) <= Find(t, h, p).value.start
      {
        if found.Some? && ShapeOf(t).FinalAt(found.value.start, buf) {
          FinalFind(t, buf, p, h);
        } else {
          OpenFrontier(t, buf, p, h);
        }
      }
    }
  }

  // ---- literals ---------------------------------------------------------------------------

  /** The most preferred literal occurring at `x` and ending by `end`. */
  function LiteralAt(lits: seq<seq<byte>>, hay: seq<byte>, x: nat, end: nat): Option<Hit>
    requires end <= |hay|
  {
    if lits == [] then None
    else if x + |lits[0]| <= end && Occurs(lits[0], hay, x) then Some(Hit(x, x + |lits[0]|))
    else LiteralAt(lits[1..], hay, x, end)
  }

  /** Leftmost-first search of a literal list in the span `[q, end)`: what memmem answers for
    * one literal and Aho-Corasick for a set. */
  function FindLiteral(lits: seq<seq<byte>>, hay: seq<byte>, q: nat, end: nat): Option<Hit>
    requires q <= end <= |hay|
    decreases end - q
  {
    var here := LiteralAt(lits, hay, q, end);
    if here.Some? then here
    else if q == end then None
    else FindLiteral(lits, hay, q + 1, end)
  }

  ghost predicate NoLonger(lits: seq<seq<byte>>, longest: nat) {
    forall k :: 0 <= k < |lits| ==> |lits[k]| <= longest
  }

  lemma {:induction false} LiteralAtStart(lits: seq<seq<byte>>, hay: seq<byte>, x: nat, end: nat)
    requires end <= |hay|
    ensures var r := LiteralAt(lits, hay, x, end); r.Some? ==> r.value.start == x <= r.value.end <= end
  {
    if lits != [] { LiteralAtStart(lits[1..], hay, x, end); }
  }

  /** A start whose longest literal fits is answered alike by a window and by the text. */
  lemma {:induction false} LiteralAtFits(lits: seq<seq<byte>>, longest: nat, hay: seq<byte>, x: nat, end: nat)
    requires NoLonger(lits, longest) && x + longest <= end <= |hay|
    ensures LiteralAt(lits, hay, x, end) == LiteralAt(lits, hay, x, |hay|)
  {
    if lits != [] { LiteralAtFits(lits[1..], longest, hay, x, end); }
  }

  /** A window's answer whose longest literal fits is the text's answer. */
  lemma {:induction false} WindowAnswers(lits: seq<seq<byte>>, longest: nat, hay: seq<byte>, q: nat, end: nat)
    requires NoLonger(lits, longest) && q <= end <= |hay|
    requires var r := FindLiteral(lits, hay, q, end); r.Some? && r.value.start + longest <= end
    ensures FindLiteral(lits, hay, q, |hay|) == FindLiteral(lits, hay, q, end)
    decreases end - q
  {
    LiteralAtStart(lits, hay, q, end);
    FindLiteralFrom(lits, hay, q, end);
    LiteralAtFits(lits, longest, hay, q, end);
    if LiteralAt(lits, hay, q, end).None? {
      WindowAnswers(lits, longest, hay, q + 1, end);
    }
  }

  lemma {:induction false} FindLiteralFrom(lits: seq<seq<byte>>, hay: seq<byte>, q: nat, end: nat)
    requires q <= end <= |hay|
    ensures var r := FindLiteral(lits, hay, q, end); r.Some? ==> q <= r.value.start <= r.value.end <= end
    decreases end - q
  {
    LiteralAtStart(lits, hay, q, end);
    if LiteralAt(lits, hay, q, end).None? && q < end { FindLiteralFrom(lits, hay, q + 1, end); }
  }

  /** A window with no answer that fits holds no start in its first `skip` bytes. */
  lemma {:induction false} WindowSkips(lits: seq<seq<byte>>, longest: nat, hay: seq<byte>, q: nat, end: nat, skip: nat)
    requires NoLonger(lits, longest) && 1 <= longest && q + skip + longest - 1 == end <= |hay|
    requires var r := FindLiteral(lits, hay, q, end); r.Some? ==> r.value.start + longest > end
    ensures FindLiteral(lits, hay, q, |hay|) == FindLiteral(lits, hay, q + skip, |hay|)
    decreases skip
  {
    if skip > 0 {
      LiteralAtFits(lits, longest, hay, q, end);
      LiteralAtStart(lits, hay, q, end);
      WindowSkips(lits, longest, hay, q + 1, end, skip - 1);
    }
  }

  /** The windowed search answers as one search of the whole buffer would. */
  method LiteralStep(lits: seq<seq<byte>>, longest: nat, shape: Shape, buf: Buffer, p: nat, work: Work)
    returns (next: Next)
    requires NoLonger(lits, longest) && 1 <= longest && p <= |buf.hay| && work.Valid()
    modifies work, work.deadline
    ensures work.Valid() && work.deadline.fired == (old(work.deadline.fired) || next.OutOfTime?)
    ensures next.OutOfTime? || next == Verdict(shape, buf, FindLiteral(lits, buf.hay, p, |buf.hay|))
  {
    var n := |buf.hay|;
    var q := p;
    while true
      invariant p <= q <= n && work.Valid() && work.deadline.fired == old(work.deadline.fired)
      invariant FindLiteral(lits, buf.hay, q, n) == FindLiteral(lits, buf.hay, p, n)
      decreases n - q
    {
      var end := Min(n, q + CHUNK_BYTES + longest - 1);
      work.units := work.units + (end - q);
      var found := FindLiteral(lits, buf.hay, q, end);
      if found.Some? && (found.value.start + longest <= end || end == n) {
        if end != n { WindowAnswers(lits, longest, buf.hay, q, end); }
        return if buf.ending.Eof? || shape.FinalAt(found.value.start, buf)
               then Final(found.value.start, found.value.end) else Open;
      }
      if found.None? && end == n {
        return if buf.ending.Eof? then NoMore else Open;
      }
      WindowSkips(lits, longest, buf.hay, q, end, CHUNK_BYTES);
      q := q + CHUNK_BYTES;
      var late := work.Check();
      if late { return OutOfTime; }
    }
  }

  /** One literal's search is the search of the pattern it is. */
  lemma {:induction false} LiteralIsPattern(w: seq<byte>, h: seq<byte>, p: nat)
    requires p <= |h|
    ensures Find(Literal(w), h, p) == FindLiteral([w], h, p, |h|)
    decreases |h| - p
  {
    assert LiteralAt([w][1..], h, p, |h|).None?;
    assert Dead(Literal(w), h, p) <==> LiteralAt([w], h, p, |h|).None?;
    if Dead(Literal(w), h, p) && p < |h| { LiteralIsPattern(w, h, p + 1); }
  }

  /** The alternation of a literal list, in preference order. */
  function AnyOf(lits: seq<seq<byte>>): seq<Hir> {
    if lits == [] then [] else [Literal(lits[0])] + AnyOf(lits[1..])
  }

  lemma {:induction false} AnyOfEnds(lits: seq<seq<byte>>, h: seq<byte>, p: nat)
    requires p <= |h|
    ensures var ends, at := AlternationEnds(AnyOf(lits), h, p), LiteralAt(lits, h, p, |h|);
      if ends == [] then at == None else at == Some(Hit(p, ends[0]))
  {
    hide Occurs;
    if lits != [] {
      assert AnyOf(lits)[0] == Literal(lits[0]) && AnyOf(lits)[1..] == AnyOf(lits[1..]);
      AnyOfEnds(lits[1..], h, p);
    }
  }

  /** An alternation of literals is searched by its literal list: the library's promise about
    * exact sets holds of every such pattern. */
  lemma {:induction false} AnyOfIsPattern(lits: seq<seq<byte>>, h: seq<byte>, p: nat)
    requires p <= |h|
    ensures Find(Alternation(AnyOf(lits)), h, p) == FindLiteral(lits, h, p, |h|)
    decreases |h| - p
  {
    AnyOfEnds(lits, h, p);
    if Dead(Alternation(AnyOf(lits)), h, p) && p < |h| { AnyOfIsPattern(lits, h, p + 1); }
  }

  // ---- the lazy DFA --------------------------------------------------------------------------

  /** A deterministic machine that reports a match one byte late. `start` takes the byte
    * before the search, `eoi` is the step past the last byte. */
  datatype Machine<!S> = Machine(
    start: Option<byte> -> S,
    next: (S, byte) -> S,
    eoi: S -> S,
    isMatch: S -> bool,
    isDead: S -> bool,
    isQuit: S -> bool)

  /** A forward machine finds ends, a reverse machine finds the start of a match by its end. */
  datatype Regex<!S> = Regex(forward: Machine<S>, reverse: Machine<S>, anchored: bool)

  datatype Run = Done(at: Option<nat>) | Quit

  /** A complete forward search of `h` from the state `sid` before byte `at`. */
  function ForwardRun<S>(m: Machine<S>, sid: S, h: seq<byte>, at: nat, mat: Option<nat>): Run
    requires at <= |h|
    decreases |h| - at
  {
    if at == |h| then Done(if m.isMatch(m.eoi(sid)) then Some(|h|) else mat)
    else
      var to := m.next(sid, h[at]);
      if m.isMatch(to) then ForwardRun(m, to, h, at + 1, Some(at))
      else if m.isDead(to) then Done(mat)
      else if m.isQuit(to) then Quit
      else ForwardRun(m, to, h, at + 1, mat)
  }

  function ForwardSearch<S>(m: Machine<S>, h: seq<byte>, p: nat): Run
    requires p <= |h|
  {
    var sid := m.start(Before(h, p));
    if m.isDead(sid) then Done(None) else ForwardRun(m, sid, h, p, None)
  }

  /** A complete reverse search from `at` down to `p`, then one byte of context. */
  function ReverseRun<S>(m: Machine<S>, sid: S, h: seq<byte>, p: nat, at: nat, mat: Option<nat>): Run
    requires p <= at <= |h|
    decreases at
  {
    if at == p then
      var to := if p > 0 then m.next(sid, h[p - 1]) else m.eoi(sid);
      Done(if m.isMatch(to) then Some(p) else mat)
    else
      var to := m.next(sid, h[at - 1]);
      if m.isMatch(to) then ReverseRun(m, to, h, p, at - 1, Some(at))
      else if m.isDead(to) then Done(mat)
      else if m.isQuit(to) then Quit
      else ReverseRun(m, to, h, p, at - 1, mat)
  }

  function ReverseSearch<S>(m: Machine<S>, h: seq<byte>, p: nat, e: nat): Run
    requires p <= e <= |h|
  {
    ReverseRun(m, m.start(At(h, e)), h, p, e, None)
  }

  /** The library's contract, about complete files only: a forward search that does not quit
    * gives the end of the leftmost-first match, a reverse search its start. Nothing is said
    * about a search that a cutoff interrupts; that is what the scan has to derive. */
  ghost predicate Implements<S(!new)>(re: Regex<S>, t: Hir) {
    forall h: seq<byte>, p: nat | p <= |h| :: ImplementsAt(re, t, h, p)
  }

  ghost predicate ImplementsAt<S>(re: Regex<S>, t: Hir, h: seq<byte>, p: nat)
    requires p <= |h|
  {
    var found, run := Find(t, h, p), ForwardSearch(re.forward, h, p);
    && (run.Quit? || run == Done(if found.Some? then Some(found.value.end) else None))
    && (found.Some? ==>
          var hit := found.value;
          var back := ReverseSearch(re.reverse, h, p, hit.end);
          && (back.Quit? || back == Done(Some(hit.start)))
          && (re.anchored ==> hit.start == p))
  }

  /** The reverse search reads nothing past the byte at `e`. */
  lemma {:induction false} ReverseReads<S>(
    m: Machine<S>, sid: S, a: seq<byte>, b: seq<byte>, n: nat, p: nat, at: nat, mat: Option<nat>)
    requires Agree(a, b, n) && p <= at <= n
    ensures ReverseRun(m, sid, a, p, at, mat) == ReverseRun(m, sid, b, p, at, mat)
    decreases at
  {
    assert p > 0 ==> a[..n][p - 1] == b[..n][p - 1];
    if at > p {
      assert a[..n][at - 1] == b[..n][at - 1];
      var to := m.next(sid, a[at - 1]);
      ReverseReads(m, to, a, b, n, p, at - 1, Some(at));
      ReverseReads(m, to, a, b, n, p, at - 1, mat);
    }
  }

  /** A forward search meets no dead state on the bytes from `at` on. */
  predicate Alive<S>(m: Machine<S>, sid: S, h: seq<byte>, at: nat)
    requires at <= |h|
    decreases |h| - at
  {
    at == |h| || (var to := m.next(sid, h[at]); (m.isMatch(to) || !m.isDead(to)) && Alive(m, to, h, at + 1))
  }

  /** The automaton had not decided the search from `p` when the bytes read ran out. */
  predicate Survives<S>(m: Machine<S>, h: seq<byte>, p: nat)
    requires p <= |h|
  {
    var sid := m.start(Before(h, p));
    !m.isDead(sid) && Alive(m, sid, h, p)
  }

  datatype Forward =
    | Decided(end: Option<nat>)
    | Pending(mat: Option<nat>, eoiMatch: bool)
    | Late
    | Broken

  /** A dead state reached inside the bytes read is every possible file's answer; a search
    * alive at the cutoff has only answered for the bytes read, and is one that met no dead
    * state on them. */
  ghost predicate ForwardSound<S>(m: Machine<S>, buf: Buffer, p: nat, f: Forward)
    requires p <= |buf.hay|
  {
    match f
    case Decided(end) =>
      && (end.Some? ==> p <= end.value <= |buf.hay| && (buf.ending.Cutoff? ==> end.value < |buf.hay|))
      && forall h | Possible(buf, h) :: ForwardSearch(m, h, p) == Done(end)
    case Pending(mat, eoiMatch) =>
      && buf.ending.Cutoff? && Survives(m, buf.hay, p)
      && (mat.Some? ==> p <= mat.value <= |buf.hay|)
      && ForwardSearch(m, buf.hay, p) == Done(if eoiMatch then Some(|buf.hay|) else mat)
    case Late => true
    case Broken => true
  }

  lemma SameBefore(buf: Buffer, p: nat)
    requires p <= |buf.hay|
    ensures forall h | Possible(buf, h) :: Before(h, p) == Before(buf.hay, p)
  {
  }

  /** The engine gave up on a search of the bytes read: it met a quit state, forward or back. */
  ghost predicate GivesUp<S>(re: Regex<S>, hay: seq<byte>, p: nat)
    requires p <= |hay|
  {
    || re.forward.isQuit(re.forward.start(Before(hay, p)))
    || ForwardSearch(re.forward, hay, p).Quit?
    || exists e :: p <= e <= |hay| && ReverseSearch(re.reverse, hay, p, e).Quit?
  }

  method ForwardStep<S>(m: Machine<S>, buf: Buffer, p: nat, work: Work) returns (f: Forward)
    requires p <= |buf.hay| && work.Valid()
    modifies work, work.deadline
    ensures work.Valid() && ForwardSound(m, buf, p, f) && work.deadline.fired == (old(work.deadline.fired) || f.Late?)
    ensures f.Broken? ==> m.isQuit(m.start(Before(buf.hay, p))) || ForwardSearch(m, buf.hay, p).Quit?
  {
    hide Before;
    var hay := buf.hay;
    var sid := m.start(Before(hay, p));
    SameBefore(buf, p);
    assert Possible(buf, hay);
    if m.isDead(sid) { return Decided(None); }
    if m.isQuit(sid) { return Broken; }
    var mat: Option<nat> := None;
    var at := p;
    while at < |hay|
      invariant p <= at <= |hay| && work.Valid() && work.deadline.fired == old(work.deadline.fired)
      invariant mat.Some? ==> p <= mat.value < at
      invariant forall h | Possible(buf, h) :: ForwardSearch(m, h, p) == ForwardRun(m, sid, h, at, mat)
      invariant Survives(m, hay, p) <==> Alive(m, sid, hay, at)
    {
      var late := work.Tick();
      if late { return Late; }
      assert forall h | Possible(buf, h) :: h[at] == hay[at];
      sid := m.next(sid, hay[at]);
      if m.isMatch(sid) {
        mat := Some(at);
      } else if m.isDead(sid) {
        return Decided(mat);
      } else if m.isQuit(sid) {
        return Broken;
      }
      at := at + 1;
    }
    var late := work.Tick();
    if late { return Late; }
    var eoiMatch := m.isMatch(m.eoi(sid));
    if buf.ending.Eof? {
      f := Decided(if eoiMatch then Some(|hay|) else mat);
    } else {
      f := Pending(mat, eoiMatch);
    }
  }

  datatype Backward = From(start: nat) | NotInTime | NoStart

  method ReverseStep<S>(re: Regex<S>, hay: seq<byte>, p: nat, e: nat, work: Work) returns (r: Backward)
    requires p <= e <= |hay| && work.Valid()
    modifies work, work.deadline
    ensures work.Valid() && work.deadline.fired == (old(work.deadline.fired) || r.NotInTime?)
    ensures r.From? ==>
      if e == p || re.anchored then r.start == p
      else ReverseSearch(re.reverse, hay, p, e) == Done(Some(r.start))
    ensures r.NoStart? ==> ReverseSearch(re.reverse, hay, p, e) in {Quit, Done(None)}
    ensures r.NoStart? ==> e != p && !re.anchored
  {
    if e == p || re.anchored { return From(p); }
    var m := re.reverse;
    var sid := m.start(At(hay, e));
    var mat: Option<nat> := None;
    var at := e;
    var alive := true;
    while at > p && alive
      invariant p <= at <= e && work.Valid() && work.deadline.fired == old(work.deadline.fired)
      invariant alive ==> ReverseSearch(m, hay, p, e) == ReverseRun(m, sid, hay, p, at, mat)
      invariant !alive ==> ReverseSearch(m, hay, p, e) == Done(mat)
    {
      var late := work.Tick();
      if late { return NotInTime; }
      sid := m.next(sid, hay[at - 1]);
      if m.isMatch(sid) {
        mat := Some(at);
      } else if m.isDead(sid) {
        alive := false;
      } else if m.isQuit(sid) {
        return NoStart;
      }
      at := at - 1;
    }
    if alive {
      var late := work.Tick();
      if late { return NotInTime; }
      sid := if p > 0 then m.next(sid, hay[p - 1]) else m.eoi(sid);
      if m.isMatch(sid) { mat := Some(p); }
    }
    r := if mat.Some? then From(mat.value) else NoStart;
  }

  /** A decided end with its reverse start is every possible file's occurrence. */
  lemma DecidedHit<S(!new)>(re: Regex<S>, t: Hir, buf: Buffer, p: nat, e: nat, s: nat)
    requires Implements(re, t) && p <= |buf.hay| && ForwardSound(re.forward, buf, p, Decided(Some(e)))
    requires if e == p || re.anchored then s == p
             else ReverseSearch(re.reverse, buf.hay, p, e) == Done(Some(s))
    ensures StepSound(t, buf, p, Final(s, e))
  {
    forall h | Possible(buf, h)
      ensures Find(t, h, p) == Some(Hit(s, e))
    {
      assert ImplementsAt(re, t, h, p);
      assert buf.hay == h[..|buf.hay|];
      ReverseReads(re.reverse, re.reverse.start(At(h, e)), buf.hay, h, |buf.hay|, p, e, None);
      assert At(h, e) == At(buf.hay, e);
    }
    assert Possible(buf, buf.hay);
  }

  lemma DecidedNone<S(!new)>(re: Regex<S>, t: Hir, buf: Buffer, p: nat)
    requires Implements(re, t) && p <= |buf.hay| && ForwardSound(re.forward, buf, p, Decided(None))
    ensures StepSound(t, buf, p, NoMore)
  {
    forall h | Possible(buf, h)
      ensures Find(t, h, p) == None
    {
      assert ImplementsAt(re, t, h, p);
    }
  }

  /** The end a search alive at the cutoff gives the bytes read, were they the whole file. */
  function PendingEnd(buf: Buffer, mat: Option<nat>, eoiMatch: bool): Option<nat> {
    if eoiMatch then Some(|buf.hay|) else mat
  }

  /** The verdict on a search alive at the cutoff. */
  lemma PendingHit<S(!new)>(re: Regex<S>, t: Hir, buf: Buffer, p: nat, e: nat, s: nat)
    requires Implements(re, t) && buf.Valid() && buf.ending.Cutoff? && p <= e <= |buf.hay|
    requires ForwardSearch(re.forward, buf.hay, p) == Done(Some(e))
    requires if e == p || re.anchored then s == p
             else ReverseSearch(re.reverse, buf.hay, p, e) == Done(Some(s))
    ensures StepSound(t, buf, p, if ShapeOf(t).FinalAt(s, buf) then Final(s, e) else Open)
  {
    assert ImplementsAt(re, t, buf.hay, p);
    VerdictSound(t, buf, p);
  }

  lemma PendingNone<S(!new)>(re: Regex<S>, t: Hir, buf: Buffer, p: nat)
    requires Implements(re, t) && buf.Valid() && buf.ending.Cutoff? && p <= |buf.hay|
    requires ForwardSearch(re.forward, buf.hay, p) == Done(None)
    ensures StepSound(t, buf, p, Open)
  {
    assert ImplementsAt(re, t, buf.hay, p);
    VerdictSound(t, buf, p);
  }

  /** The contract leaves a missing start one cause. */
  lemma StartIsThere<S(!new)>(re: Regex<S>, t: Hir, buf: Buffer, p: nat, e: nat)
    requires Implements(re, t) && p <= e <= |buf.hay| && ForwardSearch(re.forward, buf.hay, p) == Done(Some(e))
    requires ReverseSearch(re.reverse, buf.hay, p, e) in {Quit, Done(None)}
    ensures GivesUp(re, buf.hay, p)
  {
    hide ForwardSearch, ReverseSearch, Find;
    assert ImplementsAt(re, t, buf.hay, p);
  }

  /** One search of the lazy DFA: the end, then the start, then whether they are final. */
  method DfaStep<S(!new)>(re: Regex<S>, shape: Shape, buf: Buffer, p: nat, work: Work, ghost t: Hir)
    returns (next: Next)
    requires Implements(re, t) && shape == ShapeOf(t) && buf.Valid() && p <= |buf.hay| && work.Valid()
    modifies work, work.deadline
    ensures work.Valid() && StepSound(t, buf, p, next) &&
      work.deadline.fired == (old(work.deadline.fired) || next.OutOfTime?)
    ensures next.Failed? ==> GivesUp(re, buf.hay, p)
    ensures next.Open? ==> Survives(re.forward, buf.hay, p)
  {
    assert Possible(buf, buf.hay);
    var f := ForwardStep(re.forward, buf, p, work);
    if f.Late? { return OutOfTime; }
    if f.Broken? { return Failed; }
    var end := if f.Decided? then f.end else PendingEnd(buf, f.mat, f.eoiMatch);
    if end.None? {
      if f.Decided? {
        DecidedNone(re, t, buf, p);
        return NoMore;
      }
      PendingNone(re, t, buf, p);
      return Open;
    }
    var e := end.value;
    var back := ReverseStep(re, buf.hay, p, e, work);
    match back {
      case NotInTime => return OutOfTime;
      case NoStart =>
        StartIsThere(re, t, buf, p, e);
        return Failed;
      case From(s) =>
        if f.Decided? {
          DecidedHit(re, t, buf, p, e, s);
          return Final(s, e);
        }
        PendingHit(re, t, buf, p, e, s);
        next := if shape.FinalAt(s, buf) then Final(s, e) else Open;
    }
  }

  // ---- the engines ---------------------------------------------------------------------------

  datatype Engine<!S> =
    | OneLiteral(needle: seq<byte>)
    | LiteralSet(lits: seq<seq<byte>>)
    | LazyDfa(re: Regex<S>)

  function LongestOf(lits: seq<seq<byte>>): (n: nat)
    ensures NoLonger(lits, n)
  {
    if lits == [] then 0 else Max(|lits[0]|, LongestOf(lits[1..]))
  }

  /** `engine` searches for `t`: the literal it is, an exact set that a preference-order
    * search answers, or a lazy DFA that meets its contract. */
  ghost predicate SearchesFor<S(!new)>(engine: Engine<S>, t: Hir) {
    match engine
    case OneLiteral(w) => w != [] && t == Literal(w)
    case LiteralSet(lits) =>
      && LongestOf(lits) >= 1
      && forall h: seq<byte>, p: nat | p <= |h| :: Find(t, h, p) == FindLiteral(lits, h, p, |h|)
    case LazyDfa(re) => Implements(re, t)
  }

  method Step<S(!new)>(engine: Engine<S>, shape: Shape, buf: Buffer, p: nat, work: Work, ghost t: Hir)
    returns (next: Next)
    requires SearchesFor(engine, t) && shape == ShapeOf(t) && buf.Valid() && p <= |buf.hay| && work.Valid()
    modifies work, work.deadline
    ensures work.Valid() && StepSound(t, buf, p, next) &&
      work.deadline.fired == (old(work.deadline.fired) || next.OutOfTime?)
    ensures next.Failed? ==> engine.LazyDfa? && GivesUp(engine.re, buf.hay, p)
    ensures next.Open? && engine.LazyDfa? ==> Survives(engine.re.forward, buf.hay, p)
  {
    match engine {
      case OneLiteral(w) =>
        next := LiteralStep([w], |w|, shape, buf, p, work);
        LiteralIsPattern(w, buf.hay, p);
        VerdictSound(t, buf, p);
      case LiteralSet(lits) =>
        next := LiteralStep(lits, LongestOf(lits), shape, buf, p, work);
        VerdictSound(t, buf, p);
      case LazyDfa(re) =>
        next := DfaStep(re, shape, buf, p, work, t);
    }
  }
}
