/** The pattern tree and whole-file matching. */
module Pattern {
  import opened Base
  import opened Utf8

  // `Ends` is the reference semantics: every end a match starting at `i` can have, most
  // preferred first. `Find` is leftmost-first search and `FindIter` the non-overlapping
  // iteration a file's answer is defined by.

  /** The assertions the scan's engine accepts; Unicode word boundaries are refused when
    * the pattern is compiled. */
  datatype Look =
    | Start | End | StartLF | EndLF | StartCRLF | EndCRLF
    | WordAscii | WordAsciiNegate | WordStartAscii | WordEndAscii
    | WordStartHalfAscii | WordEndHalfAscii

  /** An inclusive range of bytes, or of code points. */
  datatype Range = Range(lo: nat, hi: nat)

  datatype Hir =
    | Empty
    | Literal(bytes: seq<byte>)
    | ByteClass(ranges: seq<Range>)
    | UnicodeClass(ranges: seq<Range>)
    | Assert(look: Look)
    | Repetition(sub: Hir, min: nat, max: Option<nat>, greedy: bool)
    | Capture(sub: Hir)
    | Concat(subs: seq<Hir>)
    | Alternation(subs: seq<Hir>)

  // ---- leaves -------------------------------------------------------------------

  predicate InRanges(x: nat, ranges: seq<Range>) {
    exists k :: 0 <= k < |ranges| && ranges[k].lo <= x <= ranges[k].hi
  }

  predicate IsWord(b: byte) {
    || 0x30 <= b <= 0x39 || 0x41 <= b <= 0x5A || b == 0x5F || 0x61 <= b <= 0x7A
  }

  /** The byte before and the byte at a position, where the text has them. */
  function Before(h: seq<byte>, i: nat): Option<byte>
    requires i <= |h|
  {
    if i == 0 then None else Some(h[i - 1])
  }
  function At(h: seq<byte>, i: nat): Option<byte>
    requires i <= |h|
  {
    if i == |h| then None else Some(h[i])
  }

  predicate WordByte(b: Option<byte>) { b.Some? && IsWord(b.value) }

  /** Whether `look` holds between the bytes `a` and `b` (none at the text's ends). */
  predicate Holds(look: Look, a: Option<byte>, b: Option<byte>) {
    match look
    case Start => a.None?
    case End => b.None?
    case StartLF => a.None? || a.value == LF
    case EndLF => b.None? || b.value == LF
    case StartCRLF => a.None? || a.value == LF || (a.value == CR && (b.None? || b.value != LF))
    case EndCRLF => b.None? || b.value == CR || (b.value == LF && (a.None? || a.value != CR))
    case WordAscii => WordByte(a) != WordByte(b)
    case WordAsciiNegate => WordByte(a) == WordByte(b)
    case WordStartAscii => !WordByte(a) && WordByte(b)
    case WordEndAscii => WordByte(a) && !WordByte(b)
    case WordStartHalfAscii => !WordByte(a)
    case WordEndHalfAscii => !WordByte(b)
  }

  /** The bytes `[i, i + k)` are one code point of the class. */
  predicate EncodesMember(h: seq<byte>, i: nat, k: nat, ranges: seq<Range>) {
    && i + k <= |h|
    && CodePoint(h[i..i + k]).Some?
    && InRanges(CodePoint(h[i..i + k]).value, ranges)
  }

  /** UTF-8 is prefix-free, so at most one length matches. */
  function UnicodeEnds(h: seq<byte>, i: nat, ranges: seq<Range>): (r: seq<nat>)
    requires i <= |h|
    ensures forall k :: 0 <= k < |r| ==> i <= r[k] <= |h|
  {
    if EncodesMember(h, i, 1, ranges) then [i + 1]
    else if EncodesMember(h, i, 2, ranges) then [i + 2]
    else if EncodesMember(h, i, 3, ranges) then [i + 3]
    else if EncodesMember(h, i, 4, ranges) then [i + 4]
    else []
  }

  predicate Occurs(w: seq<byte>, h: seq<byte>, i: nat) {
    i + |w| <= |h| && h[i..i + |w|] == w
  }

  // ---- ordered match ends ---------------------------------------------------------

  predicate Within(es: seq<nat>, lo: nat, hi: nat) {
    forall k :: 0 <= k < |es| ==> lo <= es[k] <= hi
  }

  /** The ends of the matches of `t` starting at `i`, most preferred first. */
  function Ends(t: Hir, h: seq<byte>, i: nat): (r: seq<nat>)
    requires i <= |h|
    ensures Within(r, i, |h|)
    decreases t, 3
  {
    match t
    case Empty => [i]
    case Literal(w) => if Occurs(w, h, i) then [i + |w|] else []
    case ByteClass(ranges) => if i < |h| && InRanges(h[i], ranges) then [i + 1] else []
    case UnicodeClass(ranges) => UnicodeEnds(h, i, ranges)
    case Assert(look) => if Holds(look, Before(h, i), At(h, i)) then [i] else []
    case Capture(sub) => Ends(sub, h, i)
    case Concat(subs) => ConcatEnds(subs, h, i, [i])
    case Alternation(subs) => AlternationEnds(subs, h, i)
    case Repetition(sub, min, max, greedy) =>
      if max.None? then
        if min == 0 then
          var more := PlusEnds(sub, greedy, h, i);
          if greedy then more + [i] else [i] + more
        else PlusFrom(sub, greedy, h, i, Times(sub, min - 1, h, i, [i]))
      else if max.value < min then []
      else OptionsFrom(sub, greedy, max.value - min, h, i, Times(sub, min, h, i, [i]))
  }

  /** The matches of `t` from each of `starts` in turn; `lo` bounds the starts below. */
  function EndsFrom(t: Hir, h: seq<byte>, lo: nat, starts: seq<nat>): (r: seq<nat>)
    requires Within(starts, lo, |h|)
    ensures Within(r, lo, |h|)
    decreases t, 4, |starts|
  {
    if starts == [] then []
    else Ends(t, h, starts[0]) + EndsFrom(t, h, lo, starts[1..])
  }

  function ConcatEnds(subs: seq<Hir>, h: seq<byte>, lo: nat, starts: seq<nat>): (r: seq<nat>)
    requires Within(starts, lo, |h|)
    ensures Within(r, lo, |h|)
    decreases subs, 0
  {
    if subs == [] then starts
    else ConcatEnds(subs[1..], h, lo, EndsFrom(subs[0], h, lo, starts))
  }

  function AlternationEnds(subs: seq<Hir>, h: seq<byte>, i: nat): (r: seq<nat>)
    requires i <= |h|
    ensures Within(r, i, |h|)
    decreases subs, 0
  {
    if subs == [] then []
    else Ends(subs[0], h, i) + AlternationEnds(subs[1..], h, i)
  }

  /** Exactly `k` iterations of `sub`. */
  function Times(sub: Hir, k: nat, h: seq<byte>, lo: nat, starts: seq<nat>): (r: seq<nat>)
    requires Within(starts, lo, |h|)
    ensures Within(r, lo, |h|)
    decreases sub, 5, k
  {
    if k == 0 then starts
    else Times(sub, k - 1, h, lo, EndsFrom(sub, h, lo, starts))
  }

  /** One or more iterations from `i`. An iteration that consumed nothing leaves the loop:
    * the engine drops a thread that returns to a state it already visited here. */
  function PlusEnds(sub: Hir, greedy: bool, h: seq<byte>, i: nat): (r: seq<nat>)
    requires i <= |h|
    ensures Within(r, i, |h|)
    decreases sub, 6, |h| - i, 2, 0
  {
    PlusAfter(sub, greedy, h, i, Ends(sub, h, i))
  }

  /** The rest of the loop after a first iteration from `i` ended at each of `ends`. */
  function PlusAfter(sub: Hir, greedy: bool, h: seq<byte>, i: nat, ends: seq<nat>): (r: seq<nat>)
    requires i <= |h| && Within(ends, i, |h|)
    ensures Within(r, i, |h|)
    decreases sub, 6, |h| - i, 1, |ends|
  {
    if ends == [] then []
    else PlusOnce(sub, greedy, h, i, ends[0]) + PlusAfter(sub, greedy, h, i, ends[1..])
  }

  function PlusOnce(sub: Hir, greedy: bool, h: seq<byte>, i: nat, e: nat): (r: seq<nat>)
    requires i <= e <= |h|
    ensures Within(r, i, |h|)
    decreases sub, 6, |h| - i, 0, 0
  {
    if e == i then [e]
    else if greedy then PlusEnds(sub, greedy, h, e) + [e]
    else [e] + PlusEnds(sub, greedy, h, e)
  }

  /** One or more iterations from each of `starts`. */
  function PlusFrom(sub: Hir, greedy: bool, h: seq<byte>, lo: nat, starts: seq<nat>): (r: seq<nat>)
    requires Within(starts, lo, |h|)
    ensures Within(r, lo, |h|)
    decreases sub, 7, |starts|
  {
    if starts == [] then []
    else PlusEnds(sub, greedy, h, starts[0]) + PlusFrom(sub, greedy, h, lo, starts[1..])
  }

  /** At most `k` iterations from `i`. */
  function Options(sub: Hir, greedy: bool, k: nat, h: seq<byte>, i: nat): (r: seq<nat>)
    requires i <= |h|
    ensures Within(r, i, |h|)
    decreases sub, 6, k, 0
  {
    if k == 0 then [i]
    else
      var more := OptionsFrom(sub, greedy, k - 1, h, i, Ends(sub, h, i));
      if greedy then more + [i] else [i] + more
  }

  function OptionsFrom(sub: Hir, greedy: bool, k: nat, h: seq<byte>, lo: nat, starts: seq<nat>): (r: seq<nat>)
    requires Within(starts, lo, |h|)
    ensures Within(r, lo, |h|)
    decreases sub, 6, k, |starts|
  {
    if starts == [] then []
    else Options(sub, greedy, k, h, starts[0]) + OptionsFrom(sub, greedy, k, h, lo, starts[1..])
  }

  // ---- whole-file matching ---------------------------------------------------------

  /** An occurrence, as its start and end. */
  datatype Hit = Hit(start: nat, end: nat)

  /** No match starts at `x`. */
  predicate Dead(t: Hir, h: seq<byte>, x: nat)
    requires x <= |h|
  {
    Ends(t, h, x) == []
  }

  /** The preferred end of a match starting at `x`. */
  function Preferred(t: Hir, h: seq<byte>, x: nat): (e: nat)
    requires x <= |h| && !Dead(t, h, x)
    ensures x <= e <= |h|
  {
    Ends(t, h, x)[0]
  }

  /** The leftmost-first match starting at or after `p`. */
  function Find(t: Hir, h: seq<byte>, p: nat): (r: Option<Hit>)
    requires p <= |h|
    ensures r.Some? ==> p <= r.value.start <= r.value.end <= |h|
    decreases |h| - p
  {
    if !Dead(t, h, p) then Some(Hit(p, Preferred(t, h, p)))
    else if p == |h| then None
    else Find(t, h, p + 1)
  }

  /** The matches from `p` on, `last` being the previous match's end: non-overlapping, an
    * empty match at `last` skipped and searched again one byte on. */
  function FindIter(t: Hir, h: seq<byte>, p: nat, last: Option<nat>): (r: seq<Hit>)
    decreases |h| + 1 - p, if last == Some(p) then 0 else 1
  {
    if p > |h| then []
    else
      var next := Find(t, h, p);
      if next.None? then []
      else
        var hit := next.value;
        if hit.start == hit.end && last == Some(hit.end) then FindIter(t, h, hit.end + 1, last)
        else [hit] + FindIter(t, h, hit.end, Some(hit.end))
  }

  /** The whole file's occurrences. */
  function WholeFile(t: Hir, h: seq<byte>): seq<Hit> { FindIter(t, h, 0, None) }

  lemma {:induction false} FindIsLeftmost(t: Hir, h: seq<byte>, p: nat)
    requires p <= |h|
    ensures Find(t, h, p).None? ==> forall x :: p <= x <= |h| ==> Dead(t, h, x)
    ensures Find(t, h, p).Some? ==>
      var hit := Find(t, h, p).value;
      && !Dead(t, h, hit.start) && Preferred(t, h, hit.start) == hit.end
      && forall x :: p <= x < hit.start ==> Dead(t, h, x)
    decreases |h| - p
  {
    hide Dead, Preferred;
    if Dead(t, h, p) && p < |h| {
      FindIsLeftmost(t, h, p + 1);
    }
  }

  /** A start that settles the search: the unique leftmost start with a match. */
  lemma {:induction false} FindIs(t: Hir, h: seq<byte>, p: nat, s: nat)
    requires p <= s <= |h|
    requires !Dead(t, h, s)
    requires forall x :: p <= x < s ==> Dead(t, h, x)
    ensures Find(t, h, p) == Some(Hit(s, Preferred(t, h, s)))
    decreases s - p
  {
    hide Dead, Preferred;
    if p < s {
      FindIs(t, h, p + 1, s);
    }
  }

  // ---- what the iteration means --------------------------------------------------------

  /** No match starts in `[from, to)`, but for one at `last` that is skipped for being empty
    * there. */
  ghost predicate Gap(t: Hir, h: seq<byte>, from: nat, to: nat, last: Option<nat>) {
    forall x :: from <= x < to && x <= |h| ==>
      Dead(t, h, x) || (last == Some(x) && Preferred(t, h, x) == x)
  }

  /** `hit` is the next occurrence of an iteration that searches from `p` after a match
    * that ended at `last`. */
  ghost predicate NextHit(t: Hir, h: seq<byte>, p: nat, last: Option<nat>, hit: Hit) {
    && p <= hit.start <= hit.end <= |h|
    && !Dead(t, h, hit.start) && Preferred(t, h, hit.start) == hit.end
    && !(hit.start == hit.end && last == Some(hit.end))
    && Gap(t, h, p, hit.start, last)
  }

  /** `l` is the list of whole-file occurrences from `p`, said without running the search:
    * each is a preferred match, none overlaps or is empty at its predecessor's end, and no
    * match starts in the gaps between them, before the first or after the last. */
  ghost predicate IsIteration(t: Hir, h: seq<byte>, p: nat, last: Option<nat>, l: seq<Hit>)
    decreases |l|
  {
    if l == [] then Gap(t, h, p, |h| + 1, last)
    else NextHit(t, h, p, last, l[0]) && IsIteration(t, h, l[0].end, Some(l[0].end), l[1..])
  }

  lemma {:induction false} FindIterIsIteration(t: Hir, h: seq<byte>, p: nat, last: Option<nat>)
    requires last.Some? ==> last.value <= p
    ensures IsIteration(t, h, p, last, FindIter(t, h, p, last))
    decreases |h| + 1 - p, if last == Some(p) then 0 else 1
  {
    hide Dead, Preferred, Find;
    if p <= |h| {
      FindIsLeftmost(t, h, p);
      var next := Find(t, h, p);
      if next.Some? {
        var hit := next.value;
        if hit.start == hit.end && last == Some(hit.end) {
          FindIterIsIteration(t, h, hit.end + 1, last);
          GapExtends(t, h, p, last, FindIter(t, h, p, last));
        } else {
          FindIterIsIteration(t, h, hit.end, Some(hit.end));
        }
      }
    }
  }

  /** A skipped empty match at `p` belongs to the gap before the next occurrence. */
  lemma GapExtends(t: Hir, h: seq<byte>, p: nat, last: Option<nat>, l: seq<Hit>)
    requires p <= |h| && last == Some(p) && !Dead(t, h, p) && Preferred(t, h, p) == p
    requires IsIteration(t, h, p + 1, last, l)
    ensures IsIteration(t, h, p, last, l)
  {
    hide Dead, Preferred;
  }

  /** The characterisation determines the list. */
  lemma {:induction false} IterationIsUnique(t: Hir, h: seq<byte>, p: nat, last: Option<nat>, a: seq<Hit>, b: seq<Hit>)
    requires IsIteration(t, h, p, last, a) && IsIteration(t, h, p, last, b)
    ensures a == b
    decreases |a|
  {
    hide Dead, Preferred;
    if a != [] && b != [] {
      SameNextHit(t, h, p, last, a[0], b[0]);
      IterationIsUnique(t, h, a[0].end, Some(a[0].end), a[1..], b[1..]);
      assert a == [a[0]] + a[1..] && b == [b[0]] + b[1..];
    }
  }

  lemma SameNextHit(t: Hir, h: seq<byte>, p: nat, last: Option<nat>, a: Hit, b: Hit)
    requires NextHit(t, h, p, last, a) && NextHit(t, h, p, last, b)
    ensures a == b
  {
    hide Dead, Preferred;
  }

  /** The whole file's occurrences are the one list that meets the characterisation. */
  lemma WholeFileCharacterised(t: Hir, h: seq<byte>, l: seq<Hit>)
    ensures l == WholeFile(t, h) <==> IsIteration(t, h, 0, None, l)
  {
    FindIterIsIteration(t, h, 0, None);
    if IsIteration(t, h, 0, None, l) {
      IterationIsUnique(t, h, 0, None, l, WholeFile(t, h));
    }
  }

  /** No occurrence of an iteration starts before the first match its search meets. */
  lemma {:induction false} IterStartsLate(t: Hir, h: seq<byte>, p: nat, last: Option<nat>, from: nat)
    requires p > |h| ==> from <= p
    requires p <= |h| && Find(t, h, p).Some? ==> from <= Find(t, h, p).value.start
    ensures forall k :: 0 <= k < |FindIter(t, h, p, last)| ==> from <= FindIter(t, h, p, last)[k].start
    decreases |h| + 1 - p, if last == Some(p) then 0 else 1
  {
    hide Find;
    if p <= |h| && Find(t, h, p).Some? {
      var hit := Find(t, h, p).value;
      if hit.start == hit.end && last == Some(hit.end) {
        IterStartsLate(t, h, hit.end + 1, last, from);
      } else {
        IterStartsLate(t, h, hit.end, Some(hit.end), from);
      }
    }
  }
}
