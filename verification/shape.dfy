/** What a pattern's syntax proves about a match that the bytes read cannot see past. */
module Shapes {
  import opened Base
  import opened Utf8
  import opened Pattern

  // Two files that agree on the first `n` bytes have the same ordered match ends from every
  // start a `Shape` calls final. One induction serves both reasons: a bounded horizon, or a
  // newline no thread of a line-local pattern can cross.

  // ---- the analysis ---------------------------------------------------------------

  /** The most bytes a match can take, as regex-syntax computes it; None when unbounded (or
    * past `usize`, or for a class nothing matches). */
  function MaximumLen(t: Hir): Option<nat> {
    match t
    case Empty => Some(0)
    case Literal(w) => Some(|w|)
    case ByteClass(ranges) => if ranges == [] then None else Some(1)
    case UnicodeClass(ranges) => if ranges == [] then None else Some(Utf8Len(HighestCode(ranges)))
    case Assert(_) => Some(0)
    case Repetition(sub, _, max, _) =>
      var one := MaximumLen(sub);
      if max.Some? && one.Some? then CheckedMul(one.value, max.value) else None
    case Capture(sub) => MaximumLen(sub)
    case Concat(subs) => SumLen(subs)
    case Alternation(subs) => LongestLen(subs)
  }

  function HighestCode(ranges: seq<Range>): (c: nat)
    ensures forall k :: 0 <= k < |ranges| ==> ranges[k].hi <= c
  {
    if ranges == [] then 0 else Max(ranges[0].hi, HighestCode(ranges[1..]))
  }

  function SumLen(subs: seq<Hir>): Option<nat> {
    if subs == [] then Some(0)
    else
      var a, b := MaximumLen(subs[0]), SumLen(subs[1..]);
      if a.Some? && b.Some? then CheckedAdd(a.value, b.value) else None
  }

  function LongestLen(subs: seq<Hir>): Option<nat> {
    if subs == [] then None
    else if |subs| == 1 then MaximumLen(subs[0])
    else
      var a, b := MaximumLen(subs[0]), LongestLen(subs[1..]);
      if a.Some? && b.Some? then Some(Max(a.value, b.value)) else None
  }

  /** The furthest offset from a match start at which a look-ahead assertion is evaluated. */
  datatype Reach = Nowhere | Offset(at: nat) | Unbounded

  function Further(a: Reach, b: Reach): Reach {
    if a.Unbounded? || b.Unbounded? then Unbounded
    else if a.Nowhere? then b
    else if b.Nowhere? then a
    else Offset(Max(a.at, b.at))
  }

  function Ahead(t: Hir): Reach {
    match t
    case Empty | Literal(_) | ByteClass(_) | UnicodeClass(_) => Nowhere
    case Assert(look) => if ReadsAhead(look) then Offset(0) else Nowhere
    case Capture(sub) => Ahead(sub)
    case Repetition(sub, _, _, _) =>
      if Ahead(sub).Nowhere? then Nowhere
      else
        var longest := MaximumLen(t);
        if longest.Some? then Offset(longest.value) else Unbounded
    case Alternation(subs) => FurthestAhead(subs)
    case Concat(subs) => ConcatAhead(subs, Some(0))
  }

  function FurthestAhead(subs: seq<Hir>): Reach {
    if subs == [] then Nowhere else Further(Ahead(subs[0]), FurthestAhead(subs[1..]))
  }

  /** The reach of a concatenation whose first part starts at `offset` (None: unbounded). */
  function ConcatAhead(subs: seq<Hir>, offset: Option<nat>): Reach {
    if subs == [] then Nowhere
    else
      var sub := Ahead(subs[0]);
      var here :=
        if sub.Nowhere? then Nowhere
        else if sub.Offset? && offset.Some? && CheckedAdd(offset.value, sub.at).Some? then
          Offset(offset.value + sub.at)
        else Unbounded;
      var longest := MaximumLen(subs[0]);
      var next := if offset.Some? && longest.Some? then CheckedAdd(offset.value, longest.value) else None;
      Further(here, ConcatAhead(subs[1..], next))
  }

  /** `look` reads the byte at its own position, not only the one before it. */
  predicate ReadsAhead(look: Look) {
    match look
    case Start | StartLF | WordStartHalfAscii => false
    case End | EndLF | StartCRLF | EndCRLF | WordAscii | WordAsciiNegate
      | WordStartAscii | WordEndAscii | WordEndHalfAscii => true
  }

  predicate ConsumesNewline(t: Hir) {
    match t
    case Empty | Assert(_) => false
    case Literal(w) => LF in w
    case ByteClass(ranges) => InRanges(10, ranges)
    case UnicodeClass(ranges) => InRanges(10, ranges)
    case Repetition(sub, _, max, _) => max != Some(0) && ConsumesNewline(sub)
    case Capture(sub) => ConsumesNewline(sub)
    case Concat(subs) => SomeConsumes(subs)
    case Alternation(subs) => SomeConsumes(subs)
  }

  predicate SomeConsumes(subs: seq<Hir>) {
    subs != [] && (ConsumesNewline(subs[0]) || SomeConsumes(subs[1..]))
  }

  datatype Ending = Eof | Cutoff

  /** One file's bytes as the matcher sees them; `lastNl` is the last LF read. */
  datatype Buffer = Buffer(hay: seq<byte>, ending: Ending, lastNl: Option<nat>) {
    ghost predicate Valid() {
      && |hay| <= ISIZE_MAX
      && match lastNl
         case Some(l) => l < |hay| && hay[l] == LF && forall k :: l < k < |hay| ==> hay[k] != LF
         case None => LF !in hay
    }
  }

  function SaturatingAdd(a: nat, b: nat): nat { if a + b <= USIZE_MAX then a + b else USIZE_MAX }
  function SaturatingSub(a: nat, b: nat): nat { if a >= b then a - b else 0 }

  datatype Shape = Shape(horizon: Option<nat>, lineLocal: bool) {
    /** An occurrence starting at `s` is decided by the bytes read. */
    predicate FinalAt(s: nat, buf: Buffer) {
      || (horizon.Some? && SaturatingAdd(s, horizon.value) <= |buf.hay|)
      || (lineLocal && buf.lastNl.Some? && buf.lastNl.value >= s)
    }

    /** The first byte an occurrence after `p` could start at undecided. */
    function Frontier(p: nat, buf: Buffer): nat {
      var pastHorizon := if horizon.Some? then SaturatingSub(|buf.hay| + 1, horizon.value) else 0;
      var pastLine := if lineLocal && buf.lastNl.Some? then buf.lastNl.value + 1 else 0;
      Max(Max(p, pastHorizon), pastLine)
    }
  }

  function ShapeOf(t: Hir): Shape {
    var longest, reach := MaximumLen(t), Ahead(t);
    var horizon :=
      if longest.None? || reach.Unbounded? then None
      else if reach.Nowhere? then longest
      else Some(Max(longest.value, SaturatingAdd(reach.at, 1)));
    Shape(horizon, !ConsumesNewline(t))
  }

  // ---- why it is sound --------------------------------------------------------------

  /** Both files hold the same first `n` bytes. */
  ghost predicate Agree(a: seq<byte>, b: seq<byte>, n: nat) {
    n <= |a| && n <= |b| && a[..n] == b[..n]
  }

  /** Why the unread bytes cannot matter: every thread stays inside its horizon, or dies at
    * the LF at `nl`. */
  datatype Cover = Horizon | Line(nl: nat)

  /** The facts about the files that a cover needs. */
  ghost predicate Grounds(cover: Cover, a: seq<byte>, b: seq<byte>, n: nat) {
    && Agree(a, b, n)
    && (cover.Line? ==> cover.nl < n && a[cover.nl] == LF)
  }

  /** Starts up to `hi` of a part that takes at most `len` bytes and looks ahead to `reach`
    * stay inside the first `n` bytes. */
  ghost predicate Fits(hi: nat, len: Option<nat>, reach: Reach, n: nat) {
    && len.Some? && hi + len.value <= n
    && (reach.Nowhere? || (reach.Offset? && hi + reach.at < n))
  }

  ghost predicate Covered(cover: Cover, t: Hir, hi: nat, n: nat) {
    match cover
    case Horizon => Fits(hi, MaximumLen(t), Ahead(t), n)
    case Line(nl) => hi == nl && !ConsumesNewline(t)
  }

  /** A bound on the ends of the matches that start at or before `hi`. */
  ghost function Last(cover: Cover, len: Option<nat>, hi: nat): nat {
    if cover.Horizon? && len.Some? then hi + len.value else hi
  }

  /** A part's look-ahead never reaches past the longest match. */
  lemma {:induction false} ReachWithinLen(t: Hir)
    requires MaximumLen(t).Some?
    ensures Ahead(t).Nowhere? || (Ahead(t).Offset? && Ahead(t).at <= MaximumLen(t).value)
    decreases t, 0
  {
    match t
    case Capture(sub) => ReachWithinLen(sub);
    case Concat(subs) => ConcatReach(subs, 0);
    case Alternation(subs) => AlternationReach(subs);
    case _ =>
  }

  lemma {:induction false} ConcatReach(subs: seq<Hir>, offset: nat)
    requires SumLen(subs).Some? && offset + SumLen(subs).value <= USIZE_MAX
    ensures var r := ConcatAhead(subs, Some(offset));
      r.Nowhere? || (r.Offset? && r.at <= offset + SumLen(subs).value)
    decreases subs, 1
  {
    if subs != [] {
      ReachWithinLen(subs[0]);
      ConcatReach(subs[1..], offset + MaximumLen(subs[0]).value);
    }
  }

  lemma {:induction false} AlternationReach(subs: seq<Hir>)
    requires LongestLen(subs).Some?
    ensures var r := FurthestAhead(subs);
      r.Nowhere? || (r.Offset? && r.at <= LongestLen(subs).value)
    decreases subs, 1
  {
    ReachWithinLen(subs[0]);
    if |subs| > 1 {
      AlternationReach(subs[1..]);
    } else {
      assert subs[1..] == [];
    }
  }

  /** Assertions and single code points read the same bytes in both files. */
  lemma LookAgree(cover: Cover, look: Look, a: seq<byte>, b: seq<byte>, n: nat, i: nat, hi: nat)
    requires Grounds(cover, a, b, n) && Covered(cover, Assert(look), hi, n) && i <= hi
    ensures i <= n
    ensures Holds(look, Before(a, i), At(a, i)) == Holds(look, Before(b, i), At(b, i))
  {
    assert i > 0 ==> a[..n][i - 1] == b[..n][i - 1];
    assert i < n ==> a[..n][i] == b[..n][i];
  }

  lemma SliceAgree(a: seq<byte>, b: seq<byte>, n: nat, i: nat, k: nat)
    requires Agree(a, b, n) && i + k <= n
    ensures a[i..i + k] == b[i..i + k]
  {
    assert a[i..i + k] == a[..n][i..i + k];
    assert b[i..i + k] == b[..n][i..i + k];
  }

  /** Bytes without an LF that start at or before the LF at `nl` end at or before it. */
  lemma StopsAtLine(h: seq<byte>, i: nat, k: nat, nl: nat)
    requires i <= nl < |h| && h[nl] == LF && i + k <= |h|
    ensures LF !in h[i..i + k] ==> i + k <= nl
  {
    if nl < i + k {
      assert h[nl] == h[i..i + k][nl - i];
    }
  }

  lemma LiteralAgree(cover: Cover, w: seq<byte>, a: seq<byte>, b: seq<byte>, n: nat, i: nat, hi: nat)
    requires Grounds(cover, a, b, n) && Covered(cover, Literal(w), hi, n) && i <= hi
    ensures Occurs(w, a, i) == Occurs(w, b, i)
    ensures Occurs(w, a, i) ==> i + |w| <= Last(cover, Some(|w|), hi)
  {
    if i + |w| <= n {
      SliceAgree(a, b, n, i, |w|);
    }
    if cover.Line? {
      assert b[..n][cover.nl] == LF;
      if Occurs(w, a, i) { StopsAtLine(a, i, |w|, cover.nl); }
      if Occurs(w, b, i) { StopsAtLine(b, i, |w|, cover.nl); }
    }
  }

  lemma MemberStops(cover: Cover, ranges: seq<Range>, h: seq<byte>, n: nat, i: nat, k: nat, hi: nat)
    requires Covered(cover, UnicodeClass(ranges), hi, n) && i <= hi && n <= |h|
    requires cover.Line? ==> cover.nl < n && h[cover.nl] == LF
    requires EncodesMember(h, i, k, ranges)
    ensures i + k <= Last(cover, MaximumLen(UnicodeClass(ranges)), hi) <= n
  {
    EncodingShape(h[i..i + k]);
    if cover.Line? {
      StopsAtLine(h, i, k, cover.nl);
    }
  }

  lemma MemberAgree(cover: Cover, ranges: seq<Range>, a: seq<byte>, b: seq<byte>, n: nat, i: nat, k: nat, hi: nat)
    requires Grounds(cover, a, b, n) && Covered(cover, UnicodeClass(ranges), hi, n) && i <= hi
    ensures EncodesMember(a, i, k, ranges) == EncodesMember(b, i, k, ranges)
    ensures EncodesMember(a, i, k, ranges) ==> i + k <= Last(cover, MaximumLen(UnicodeClass(ranges)), hi)
  {
    assert cover.Line? ==> b[..n][cover.nl] == LF;
    if EncodesMember(a, i, k, ranges) {
      MemberStops(cover, ranges, a, n, i, k, hi);
      SliceAgree(a, b, n, i, k);
    }
    if EncodesMember(b, i, k, ranges) {
      MemberStops(cover, ranges, b, n, i, k, hi);
      SliceAgree(a, b, n, i, k);
    }
  }

  lemma UnicodeAgree(cover: Cover, ranges: seq<Range>, a: seq<byte>, b: seq<byte>, n: nat, i: nat, hi: nat)
    requires Grounds(cover, a, b, n) && Covered(cover, UnicodeClass(ranges), hi, n) && i <= hi <= n
    ensures UnicodeEnds(a, i, ranges) == UnicodeEnds(b, i, ranges)
    ensures Within(UnicodeEnds(a, i, ranges), i, Last(cover, MaximumLen(UnicodeClass(ranges)), hi))
  {
    MemberAgree(cover, ranges, a, b, n, i, 1, hi);
    MemberAgree(cover, ranges, a, b, n, i, 2, hi);
    MemberAgree(cover, ranges, a, b, n, i, 3, hi);
    MemberAgree(cover, ranges, a, b, n, i, 4, hi);
  }

  lemma ByteClassAgree(cover: Cover, ranges: seq<Range>, a: seq<byte>, b: seq<byte>, n: nat, i: nat, hi: nat)
    requires Grounds(cover, a, b, n) && Covered(cover, ByteClass(ranges), hi, n) && i <= hi
    ensures i < n && a[i] == b[i]
    ensures InRanges(a[i], ranges) ==> i + 1 <= Last(cover, MaximumLen(ByteClass(ranges)), hi)
  {
    assert a[..n][i] == b[..n][i];
  }

  /** The agreement theorem: inside a cover, both files have the same ordered match ends,
    * and those ends stay inside it. */
  lemma {:induction false} EndsAgree(cover: Cover, t: Hir, a: seq<byte>, b: seq<byte>, n: nat, i: nat, hi: nat)
    requires Grounds(cover, a, b, n) && Covered(cover, t, hi, n) && i <= hi
    ensures i <= n && Ends(t, a, i) == Ends(t, b, i)
    ensures Within(Ends(t, a, i), i, Last(cover, MaximumLen(t), hi))
    decreases t, 3
  {
    match t
    case Empty =>
    case Literal(w) => LiteralAgree(cover, w, a, b, n, i, hi);
    case ByteClass(ranges) => ByteClassAgree(cover, ranges, a, b, n, i, hi);
    case UnicodeClass(ranges) => UnicodeAgree(cover, ranges, a, b, n, i, hi);
    case Assert(look) => LookAgree(cover, look, a, b, n, i, hi);
    case Capture(sub) => EndsAgree(cover, sub, a, b, n, i, hi);
    case Concat(subs) => ConcatAgree(cover, subs, a, b, n, i, [i], hi, hi, 0);
    case Alternation(subs) => AlternationAgree(cover, subs, a, b, n, i, hi);
    case Repetition(sub, min, max, greedy) =>
      if max.None? {
        UnboundedAgree(sub, min, greedy, a, b, n, i, hi);
      } else if min <= max.value {
        BoundedAgree(cover, sub, min, max.value, greedy, a, b, n, i, hi);
      }
  }

  lemma {:induction false} EndsFromAgree(
    cover: Cover, t: Hir, a: seq<byte>, b: seq<byte>, n: nat, lo: nat, starts: seq<nat>, hi: nat)
    requires Grounds(cover, a, b, n) && Covered(cover, t, hi, n) && Within(starts, lo, hi)
    ensures hi <= n && EndsFrom(t, a, lo, starts) == EndsFrom(t, b, lo, starts)
    ensures Within(EndsFrom(t, a, lo, starts), lo, Last(cover, MaximumLen(t), hi))
    decreases t, 4, |starts|
  {
    if starts != [] {
      EndsAgree(cover, t, a, b, n, starts[0], hi);
      EndsFromAgree(cover, t, a, b, n, lo, starts[1..], hi);
    }
  }

  /** A concatenation's remaining parts, `offset` past the bound `base` on its start. */
  ghost predicate ConcatCovered(cover: Cover, subs: seq<Hir>, base: nat, offset: nat, hi: nat, n: nat) {
    match cover
    case Horizon =>
      && hi == base + offset
      && SumLen(subs).Some? && offset + SumLen(subs).value <= USIZE_MAX && hi + SumLen(subs).value <= n
      && var reach := ConcatAhead(subs, Some(offset));
         reach.Nowhere? || (reach.Offset? && base + reach.at < n)
    case Line(nl) => hi == nl && !SomeConsumes(subs)
  }

  lemma {:induction false} ConcatAgree(
    cover: Cover, subs: seq<Hir>, a: seq<byte>, b: seq<byte>, n: nat, lo: nat, starts: seq<nat>, hi: nat, base: nat,
    offset: nat)
    requires Grounds(cover, a, b, n) && ConcatCovered(cover, subs, base, offset, hi, n) && Within(starts, lo, hi)
    ensures hi <= n && ConcatEnds(subs, a, lo, starts) == ConcatEnds(subs, b, lo, starts)
    ensures Within(ConcatEnds(subs, a, lo, starts), lo, Last(cover, SumLen(subs), hi))
    decreases subs, 0
  {
    if subs != [] {
      EndsFromAgree(cover, subs[0], a, b, n, lo, starts, hi);
      var next := EndsFrom(subs[0], a, lo, starts);
      var longest := MaximumLen(subs[0]);
      var taken := if longest.Some? then longest.value else 0;
      ConcatAgree(cover, subs[1..], a, b, n, lo, next, Last(cover, longest, hi), base, offset + taken);
    }
  }

  ghost predicate AlternationCovered(cover: Cover, subs: seq<Hir>, hi: nat, n: nat) {
    match cover
    case Horizon => subs == [] || Fits(hi, LongestLen(subs), FurthestAhead(subs), n)
    case Line(nl) => hi == nl && !SomeConsumes(subs)
  }

  lemma {:induction false} AlternationAgree(
    cover: Cover, subs: seq<Hir>, a: seq<byte>, b: seq<byte>, n: nat, i: nat, hi: nat)
    requires Grounds(cover, a, b, n) && i <= hi <= n
    requires AlternationCovered(cover, subs, hi, n)
    ensures AlternationEnds(subs, a, i) == AlternationEnds(subs, b, i)
    ensures Within(AlternationEnds(subs, a, i), i, Last(cover, LongestLen(subs), hi))
    decreases subs, 0
  {
    if subs != [] {
      EndsAgree(cover, subs[0], a, b, n, i, hi);
      AlternationAgree(cover, subs[1..], a, b, n, i, hi);
    }
  }

  /** `k` times `m`, added up. */
  ghost function Total(k: nat, m: nat): nat {
    if k == 0 then 0 else m + Total(k - 1, m)
  }

  lemma {:induction false} TotalIsProduct(k: nat, m: nat)
    ensures Total(k, m) == m * k
  {
    if k > 0 {
      TotalIsProduct(k - 1, m);
      assert m * k == m + m * (k - 1);
    }
  }

  lemma {:induction false} TotalSplits(j: nat, k: nat, m: nat)
    ensures Total(j + k, m) == Total(j, m) + Total(k, m)
  {
    if j > 0 {
      TotalSplits(j - 1, k, m);
    }
  }

  /** At most `k` iterations of `sub` from a start up to `hi` are inside the cover. */
  ghost predicate LoopCovered(cover: Cover, sub: Hir, k: nat, hi: nat, n: nat) {
    match cover
    case Horizon =>
      && MaximumLen(sub).Some? && hi + Total(k, MaximumLen(sub).value) <= n
      && (Ahead(sub).Nowhere? || hi + Total(k, MaximumLen(sub).value) < n)
    case Line(nl) => hi == nl && (k == 0 || !ConsumesNewline(sub))
  }

  ghost function LoopLast(cover: Cover, sub: Hir, k: nat, hi: nat): nat {
    if cover.Horizon? && MaximumLen(sub).Some? then hi + Total(k, MaximumLen(sub).value) else hi
  }

  /** One iteration is covered, and what is left after it too. */
  lemma LoopStep(cover: Cover, sub: Hir, k: nat, hi: nat, n: nat)
    requires k > 0 && LoopCovered(cover, sub, k, hi, n)
    ensures Covered(cover, sub, hi, n)
    ensures LoopCovered(cover, sub, k - 1, Last(cover, MaximumLen(sub), hi), n)
    ensures LoopLast(cover, sub, k, hi) == LoopLast(cover, sub, k - 1, Last(cover, MaximumLen(sub), hi))
    ensures hi <= LoopLast(cover, sub, k, hi)
  {
    if cover.Horizon? {
      ReachWithinLen(sub);
    }
  }

  lemma {:induction false} TimesAgree(
    cover: Cover, sub: Hir, k: nat, a: seq<byte>, b: seq<byte>, n: nat, lo: nat, starts: seq<nat>, hi: nat)
    requires Grounds(cover, a, b, n) && LoopCovered(cover, sub, k, hi, n) && Within(starts, lo, hi)
    ensures hi <= n && Times(sub, k, a, lo, starts) == Times(sub, k, b, lo, starts)
    ensures Within(Times(sub, k, a, lo, starts), lo, LoopLast(cover, sub, k, hi))
    decreases sub, 5, k
  {
    if k > 0 {
      LoopStep(cover, sub, k, hi, n);
      EndsFromAgree(cover, sub, a, b, n, lo, starts, hi);
      TimesAgree(cover, sub, k - 1, a, b, n, lo, EndsFrom(sub, a, lo, starts), Last(cover, MaximumLen(sub), hi));
    }
  }

  lemma {:induction false} OptionsAgree(
    cover: Cover, sub: Hir, greedy: bool, k: nat, a: seq<byte>, b: seq<byte>, n: nat, i: nat, hi: nat)
    requires Grounds(cover, a, b, n) && LoopCovered(cover, sub, k, hi, n) && i <= hi
    ensures hi <= n && Options(sub, greedy, k, a, i) == Options(sub, greedy, k, b, i)
    ensures Within(Options(sub, greedy, k, a, i), i, LoopLast(cover, sub, k, hi))
    decreases sub, 6, k, 0
  {
    if k > 0 {
      LoopStep(cover, sub, k, hi, n);
      EndsAgree(cover, sub, a, b, n, i, hi);
      OptionsFromAgree(cover, sub, greedy, k - 1, a, b, n, i, Ends(sub, a, i), Last(cover, MaximumLen(sub), hi));
    }
  }

  lemma {:induction false} OptionsFromAgree(
    cover: Cover, sub: Hir, greedy: bool, k: nat, a: seq<byte>, b: seq<byte>, n: nat, lo: nat, starts: seq<nat>,
    hi: nat)
    requires Grounds(cover, a, b, n) && LoopCovered(cover, sub, k, hi, n) && Within(starts, lo, hi)
    ensures hi <= n && OptionsFrom(sub, greedy, k, a, lo, starts) == OptionsFrom(sub, greedy, k, b, lo, starts)
    ensures Within(OptionsFrom(sub, greedy, k, a, lo, starts), lo, LoopLast(cover, sub, k, hi))
    decreases sub, 6, k, |starts|
  {
    if starts != [] {
      OptionsAgree(cover, sub, greedy, k, a, b, n, starts[0], hi);
      OptionsFromAgree(cover, sub, greedy, k, a, b, n, lo, starts[1..], hi);
    }
  }

  /** A covered `sub{min,max}` covers its `min` iterations and the options after them. */
  lemma BoundedCovered(cover: Cover, sub: Hir, min: nat, max: nat, greedy: bool, hi: nat, n: nat)
    requires min <= max && Covered(cover, Repetition(sub, min, Some(max), greedy), hi, n)
    ensures var mid := LoopLast(cover, sub, min, hi);
      && LoopCovered(cover, sub, min, hi, n)
      && LoopCovered(cover, sub, max - min, mid, n)
      && LoopLast(cover, sub, max - min, mid) == Last(cover, MaximumLen(Repetition(sub, min, Some(max), greedy)), hi)
  {
    if cover.Horizon? {
      var m := MaximumLen(sub).value;
      TotalIsProduct(max, m);
      TotalSplits(min, max - min, m);
    }
  }

  lemma {:induction false} BoundedAgree(
    cover: Cover, sub: Hir, min: nat, max: nat, greedy: bool, a: seq<byte>, b: seq<byte>, n: nat, i: nat, hi: nat)
    requires Grounds(cover, a, b, n) && i <= hi && min <= max
    requires Covered(cover, Repetition(sub, min, Some(max), greedy), hi, n)
    ensures var t := Repetition(sub, min, Some(max), greedy);
      i <= n && Ends(t, a, i) == Ends(t, b, i) && Within(Ends(t, a, i), i, Last(cover, MaximumLen(t), hi))
    decreases sub, 8
  {
    hide OptionsFrom, Times, LoopCovered, Covered, LoopLast;
    BoundedCovered(cover, sub, min, max, greedy, hi, n);
    TimesAgree(cover, sub, min, a, b, n, i, [i], hi);
    var starts := Times(sub, min, a, i, [i]);
    OptionsFromAgree(cover, sub, greedy, max - min, a, b, n, i, starts, LoopLast(cover, sub, min, hi));
  }

  // An unbounded loop has no horizon; only the line's end covers it.

  ghost predicate LineGrounds(a: seq<byte>, b: seq<byte>, n: nat, nl: nat, sub: Hir) {
    Grounds(Line(nl), a, b, n) && !ConsumesNewline(sub)
  }

  lemma {:induction false} UnboundedAgree(
    sub: Hir, min: nat, greedy: bool, a: seq<byte>, b: seq<byte>, n: nat, i: nat, nl: nat)
    requires LineGrounds(a, b, n, nl, sub) && i <= nl
    ensures var t := Repetition(sub, min, None, greedy);
      Ends(t, a, i) == Ends(t, b, i) && Within(Ends(t, a, i), i, nl)
    decreases sub, 8
  {
    hide PlusEnds, PlusFrom, Times, ConsumesNewline;
    if min == 0 {
      PlusAgree(sub, greedy, a, b, n, nl, i);
    } else {
      TimesAgree(Line(nl), sub, min - 1, a, b, n, i, [i], nl);
      PlusFromAgree(sub, greedy, a, b, n, nl, i, Times(sub, min - 1, a, i, [i]));
    }
  }

  lemma {:induction false} PlusAgree(sub: Hir, greedy: bool, a: seq<byte>, b: seq<byte>, n: nat, nl: nat, i: nat)
    requires LineGrounds(a, b, n, nl, sub) && i <= nl
    ensures PlusEnds(sub, greedy, a, i) == PlusEnds(sub, greedy, b, i)
    ensures Within(PlusEnds(sub, greedy, a, i), i, nl)
    decreases sub, 6, |a| - i, 2, 0
  {
    EndsAgree(Line(nl), sub, a, b, n, i, nl);
    PlusAfterAgree(sub, greedy, a, b, n, nl, i, Ends(sub, a, i));
  }

  lemma {:induction false} PlusAfterAgree(
    sub: Hir, greedy: bool, a: seq<byte>, b: seq<byte>, n: nat, nl: nat, i: nat, ends: seq<nat>)
    requires LineGrounds(a, b, n, nl, sub) && i <= nl && Within(ends, i, nl)
    ensures PlusAfter(sub, greedy, a, i, ends) == PlusAfter(sub, greedy, b, i, ends)
    ensures Within(PlusAfter(sub, greedy, a, i, ends), i, nl)
    decreases sub, 6, |a| - i, 1, |ends|
  {
    if ends != [] {
      PlusOnceAgree(sub, greedy, a, b, n, nl, i, ends[0]);
      PlusAfterAgree(sub, greedy, a, b, n, nl, i, ends[1..]);
    }
  }

  lemma {:induction false} PlusOnceAgree(
    sub: Hir, greedy: bool, a: seq<byte>, b: seq<byte>, n: nat, nl: nat, i: nat, e: nat)
    requires LineGrounds(a, b, n, nl, sub) && i <= e <= nl
    ensures PlusOnce(sub, greedy, a, i, e) == PlusOnce(sub, greedy, b, i, e)
    ensures Within(PlusOnce(sub, greedy, a, i, e), i, nl)
    decreases sub, 6, |a| - i, 0, 0
  {
    if e != i {
      PlusAgree(sub, greedy, a, b, n, nl, e);
    }
  }

  lemma {:induction false} PlusFromAgree(
    sub: Hir, greedy: bool, a: seq<byte>, b: seq<byte>, n: nat, nl: nat, lo: nat, starts: seq<nat>)
    requires LineGrounds(a, b, n, nl, sub) && Within(starts, lo, nl)
    ensures PlusFrom(sub, greedy, a, lo, starts) == PlusFrom(sub, greedy, b, lo, starts)
    ensures Within(PlusFrom(sub, greedy, a, lo, starts), lo, nl)
    decreases sub, 7, |starts|
  {
    if starts != [] {
      PlusAgree(sub, greedy, a, b, n, nl, starts[0]);
      PlusFromAgree(sub, greedy, a, b, n, nl, lo, starts[1..]);
    }
  }

  // ---- what a cutoff may claim --------------------------------------------------------

  /** Shape soundness: if `FinalAt(s)` holds, two files that both begin with the bytes read
    * have the same ordered match ends from every start at or before `s`. */
  lemma ShapeSound(t: Hir, buf: Buffer, s: nat, a: seq<byte>, b: seq<byte>, i: nat)
    requires buf.Valid() && buf.hay <= a && buf.hay <= b
    requires ShapeOf(t).FinalAt(s, buf) && i <= s
    ensures i <= |buf.hay| && Ends(t, a, i) == Ends(t, b, i)
  {
    var n := |buf.hay|;
    assert a[..n] == buf.hay == b[..n];
    var shape := ShapeOf(t);
    if shape.horizon.Some? && SaturatingAdd(s, shape.horizon.value) <= n {
      EndsAgree(Horizon, t, a, b, n, i, s);
    } else {
      EndsAgree(Line(buf.lastNl.value), t, a, b, n, i, buf.lastNl.value);
    }
  }

  /** A candidate the shape calls final is the whole file's, whatever follows. */
  lemma FinalFind(t: Hir, buf: Buffer, p: nat, h: seq<byte>)
    requires buf.Valid() && buf.hay <= h && p <= |buf.hay|
    requires Find(t, buf.hay, p).Some? && ShapeOf(t).FinalAt(Find(t, buf.hay, p).value.start, buf)
    ensures Find(t, h, p) == Find(t, buf.hay, p)
  {
    var hit := Find(t, buf.hay, p).value;
    FindIsLeftmost(t, buf.hay, p);
    forall x | p <= x <= hit.start
      ensures Dead(t, h, x) == Dead(t, buf.hay, x)
      ensures !Dead(t, h, x) ==> Preferred(t, h, x) == Preferred(t, buf.hay, x)
    {
      ShapeSound(t, buf, hit.start, buf.hay, h, x);
    }
    FindIs(t, h, p, hit.start);
  }

  lemma FinalBelow(shape: Shape, buf: Buffer, s: nat, x: nat)
    requires |buf.hay| <= ISIZE_MAX && shape.FinalAt(s, buf) && x <= s
    ensures shape.FinalAt(x, buf)
  {
  }

  /** A start before the frontier is decided. */
  lemma DecidedBelowFrontier(shape: Shape, buf: Buffer, p: nat, x: nat)
    requires |buf.hay| <= ISIZE_MAX && p <= x < shape.Frontier(p, buf)
    ensures shape.FinalAt(x, buf)
  {
  }

  /** A decided occurrence of the whole file is one of the bytes read. */
  lemma DecidedStart(t: Hir, buf: Buffer, p: nat, h: seq<byte>, x: nat)
    requires buf.Valid() && buf.hay <= h && p <= |buf.hay|
    requires p <= x <= |h| && !Dead(t, h, x) && ShapeOf(t).FinalAt(x, buf)
    ensures Find(t, buf.hay, p).Some? && Find(t, buf.hay, p).value.start <= x
  {
    ShapeSound(t, buf, x, buf.hay, h, x);
    assert !Dead(t, buf.hay, x);
    FindIsLeftmost(t, buf.hay, p);
  }

  /** When the bytes read hold no final candidate, no whole-file occurrence from `p` starts
    * before the frontier. */
  lemma OpenFrontier(t: Hir, buf: Buffer, p: nat, h: seq<byte>)
    requires buf.Valid() && buf.hay <= h && p <= |buf.hay|
    requires Find(t, buf.hay, p).Some? ==> !ShapeOf(t).FinalAt(Find(t, buf.hay, p).value.start, buf)
    ensures Find(t, h, p).Some? ==> ShapeOf(t).Frontier(p, buf) <= Find(t, h, p).value.start
  {
    var shape, found := ShapeOf(t), Find(t, h, p);
    if found.Some? && found.value.start < shape.Frontier(p, buf) {
      FindIsLeftmost(t, h, p);
      DecidedBelowFrontier(shape, buf, p, found.value.start);
      DecidedStart(t, buf, p, h, found.value.start);
      FinalBelow(shape, buf, found.value.start, Find(t, buf.hay, p).value.start);
      assert false;
    }
  }
}
