/** The texts a pattern can take, and how exactly a shape bounds them. */
module Language {
  import opened Base
  import opened Utf8
  import opened Pattern
  import opened Matching
  import opened Shapes

  // A shape that called less final than it may would still be sound. Here it is shown to
  // call final exactly the starts from which no text of the pattern can take or look at a
  // byte that was not read, and no text holds the newline that was.

  /** `w` is a text the pattern can take, its assertions aside. */
  ghost predicate Spells(t: Hir, w: seq<byte>)
    decreases t, 0
  {
    match t
    case Empty => w == []
    case Literal(bytes) => w == bytes
    case ByteClass(ranges) => |w| == 1 && InRanges(w[0], ranges)
    case UnicodeClass(ranges) => CodePoint(w).Some? && InRanges(CodePoint(w).value, ranges)
    case Assert(_) => w == []
    case Capture(sub) => Spells(sub, w)
    case Concat(subs) => SpellsAll(subs, w)
    case Alternation(subs) => exists k :: 0 <= k < |subs| && Spells(subs[k], w)
    case Repetition(sub, min, max, _) => exists n: nat :: Allowed(min, max, n) && SpellsTimes(sub, n, w)
  }

  ghost predicate SpellsAll(subs: seq<Hir>, w: seq<byte>)
    decreases subs, 0
  {
    if subs == [] then w == []
    else exists a, b :: w == a + b && Spells(subs[0], a) && SpellsAll(subs[1..], b)
  }

  ghost predicate SpellsTimes(sub: Hir, n: nat, w: seq<byte>)
    decreases sub, 1, n
  {
    if n == 0 then w == []
    else exists a, b :: w == a + b && Spells(sub, a) && SpellsTimes(sub, n - 1, b)
  }

  /** The pattern holds an assertion that reads the byte at its own position. */
  predicate LooksAhead(t: Hir)
    decreases t, 0
  {
    match t
    case Empty | Literal(_) | ByteClass(_) | UnicodeClass(_) => false
    case Assert(look) => ReadsAhead(look)
    case Capture(sub) => LooksAhead(sub)
    case Repetition(sub, _, _, _) => LooksAhead(sub)
    case Concat(subs) => exists k :: 0 <= k < |subs| && LooksAhead(subs[k])
    case Alternation(subs) => exists k :: 0 <= k < |subs| && LooksAhead(subs[k])
  }

  /** An assertion of the pattern can look at the byte after `w`. One inside a loop may sit at
    * the end of the loop's last iteration. */
  ghost predicate LooksAfter(t: Hir, w: seq<byte>)
    decreases t, 0
  {
    match t
    case Empty | Literal(_) | ByteClass(_) | UnicodeClass(_) => false
    case Assert(look) => ReadsAhead(look) && w == []
    case Capture(sub) => LooksAfter(sub, w)
    case Repetition(sub, _, _, _) => LooksAhead(sub) && Spells(t, w)
    case Concat(subs) => LooksAfterSome(subs, w)
    case Alternation(subs) => exists k :: 0 <= k < |subs| && LooksAfter(subs[k], w)
  }

  ghost predicate LooksAfterSome(subs: seq<Hir>, w: seq<byte>)
    decreases subs, 0
  {
    && subs != []
    && (|| LooksAfter(subs[0], w)
        || exists a, b :: w == a + b && Spells(subs[0], a) && LooksAfterSome(subs[1..], b))
  }

  /** What the pattern compiler guarantees of a tree none of whose classes is empty: ranges in
    * order, loops that can run, and no unbounded loop over the empty text. */
  predicate Proper(t: Hir)
    decreases t, 0
  {
    match t
    case Empty | Literal(_) | Assert(_) => true
    case ByteClass(ranges) =>
      ranges != [] && forall k :: 0 <= k < |ranges| ==> ranges[k].lo <= ranges[k].hi < 256
    case UnicodeClass(ranges) =>
      ranges != [] && forall k :: 0 <= k < |ranges| ==> ranges[k].lo <= ranges[k].hi && Scalar(ranges[k].hi)
    case Capture(sub) => Proper(sub)
    case Repetition(sub, min, max, _) =>
      && Proper(sub)
      && (if max.Some? then min <= max.value && max.value > 0 else MaximumLen(sub) != Some(0))
    case Concat(subs) => forall k :: 0 <= k < |subs| ==> Proper(subs[k])
    case Alternation(subs) => subs != [] && forall k :: 0 <= k < |subs| ==> Proper(subs[k])
  }

  // ---- matches are texts of the pattern -----------------------------------------------

  /** What a match takes is a text of the pattern. */
  lemma {:induction false} MatchSpells(t: Hir, h: seq<byte>, i: nat, e: nat)
    requires Matches(t, h, i, e)
    ensures i <= e <= |h| && Spells(t, h[i..e])
    decreases t, 0
  {
    MatchBounds(t, h, i, e);
    match t
    case Capture(sub) => MatchSpells(sub, h, i, e);
    case Concat(subs) => InTurnSpells(subs, h, i, e);
    case Alternation(subs) =>
      var k :| 0 <= k < |subs| && Matches(subs[k], h, i, e);
      MatchSpells(subs[k], h, i, e);
    case Repetition(sub, min, max, _) =>
      var n: nat :| Allowed(min, max, n) && Iterates(sub, n, h, i, e);
      IteratesSpells(sub, n, h, i, e);
    case _ =>
  }

  lemma {:induction false} InTurnSpells(subs: seq<Hir>, h: seq<byte>, i: nat, e: nat)
    requires InTurn(subs, h, i, e)
    ensures i <= e <= |h| && SpellsAll(subs, h[i..e])
    decreases subs, 0
  {
    if subs != [] {
      var m := FirstPart(subs, h, i, e);
      MatchSpells(subs[0], h, i, m);
      InTurnSpells(subs[1..], h, m, e);
      assert h[i..e] == h[i..m] + h[m..e];
    }
  }

  lemma {:induction false} IteratesSpells(sub: Hir, n: nat, h: seq<byte>, i: nat, e: nat)
    requires Iterates(sub, n, h, i, e)
    ensures i <= e <= |h| && SpellsTimes(sub, n, h[i..e])
    decreases sub, 1, n
  {
    if n > 0 {
      var m := FirstIteration(sub, n, h, i, e);
      MatchSpells(sub, h, i, m);
      IteratesSpells(sub, n - 1, h, m, e);
      assert h[i..e] == h[i..m] + h[m..e];
    }
  }

  predicate AssertionFree(t: Hir)
    decreases t, 0
  {
    match t
    case Empty | Literal(_) | ByteClass(_) | UnicodeClass(_) => true
    case Assert(_) => false
    case Capture(sub) => AssertionFree(sub)
    case Repetition(sub, _, _, _) => AssertionFree(sub)
    case Concat(subs) => forall k :: 0 <= k < |subs| ==> AssertionFree(subs[k])
    case Alternation(subs) => forall k :: 0 <= k < |subs| ==> AssertionFree(subs[k])
  }

  /** Without assertions the converse holds: wherever a text of the pattern stands, it is a
    * match. */
  lemma {:induction false} SpeltIsMatched(t: Hir, h: seq<byte>, i: nat, e: nat)
    requires AssertionFree(t) && i <= e <= |h| && Spells(t, h[i..e])
    ensures Matches(t, h, i, e)
    decreases t, 0
  {
    match t
    case Empty =>
    case Literal(_) =>
    case ByteClass(_) =>
    case UnicodeClass(_) => EncodingShape(h[i..e]);
    case Capture(sub) => SpeltIsMatched(sub, h, i, e);
    case Concat(subs) => SpeltInTurn(subs, h, i, e);
    case Alternation(subs) =>
      var k :| 0 <= k < |subs| && Spells(subs[k], h[i..e]);
      SpeltIsMatched(subs[k], h, i, e);
    case Repetition(sub, min, max, _) =>
      var n: nat :| Allowed(min, max, n) && SpellsTimes(sub, n, h[i..e]);
      SpeltIterates(sub, n, h, i, e);
  }

  lemma {:induction false} SpeltInTurn(subs: seq<Hir>, h: seq<byte>, i: nat, e: nat)
    requires forall k :: 0 <= k < |subs| ==> AssertionFree(subs[k])
    requires i <= e <= |h| && SpellsAll(subs, h[i..e])
    ensures InTurn(subs, h, i, e)
    decreases subs, 0
  {
    if subs != [] {
      var a, b :| h[i..e] == a + b && Spells(subs[0], a) && SpellsAll(subs[1..], b);
      var m := i + |a|;
      assert a == h[i..m] && b == h[m..e] by { SplitAt(h, i, e, a, b); }
      SpeltIsMatched(subs[0], h, i, m);
      SpeltInTurn(subs[1..], h, m, e);
    } else {
      assert |h[i..e]| == 0;
    }
  }

  lemma {:induction false} SpeltIterates(sub: Hir, n: nat, h: seq<byte>, i: nat, e: nat)
    requires AssertionFree(sub) && i <= e <= |h| && SpellsTimes(sub, n, h[i..e])
    ensures Iterates(sub, n, h, i, e)
    decreases sub, 1, n
  {
    if n > 0 {
      var a, b :| h[i..e] == a + b && Spells(sub, a) && SpellsTimes(sub, n - 1, b);
      var m := i + |a|;
      assert a == h[i..m] && b == h[m..e] by { SplitAt(h, i, e, a, b); }
      SpeltIsMatched(sub, h, i, m);
      SpeltIterates(sub, n - 1, h, m, e);
    } else {
      assert |h[i..e]| == 0;
    }
  }

  lemma SplitAt(h: seq<byte>, i: nat, e: nat, a: seq<byte>, b: seq<byte>)
    requires i <= e <= |h| && h[i..e] == a + b
    ensures i + |a| <= e && h[i..i + |a|] == a && h[i + |a|..e] == b
  {
    assert |h[i..e]| == |a| + |b|;
    assert a == (a + b)[..|a|] && b == (a + b)[|a|..];
  }

  // ---- a bound on every text ----------------------------------------------------------

  /** No text is longer than the maximum, and only one that consumes newlines holds an LF. */
  lemma {:induction false} TextIsBounded(t: Hir, w: seq<byte>)
    requires Spells(t, w)
    ensures MaximumLen(t).Some? ==> |w| <= MaximumLen(t).value
    ensures LF in w ==> ConsumesNewline(t)
    decreases t, 0
  {
    match t
    case Empty =>
    case Literal(_) =>
    case Assert(_) =>
    case ByteClass(_) =>
    case UnicodeClass(ranges) => EncodingShape(w);
    case Capture(sub) => TextIsBounded(sub, w);
    case Concat(subs) => AllBounded(subs, w);
    case Alternation(subs) =>
      var k :| 0 <= k < |subs| && Spells(subs[k], w);
      TextIsBounded(subs[k], w);
      OneOfBounded(subs, k);
    case Repetition(sub, min, max, _) =>
      var n: nat :| Allowed(min, max, n) && SpellsTimes(sub, n, w);
      TimesBounded(sub, n, w);
      if MaximumLen(t).Some? {
        TotalIsProduct(max.value, MaximumLen(sub).value);
        TotalSplits(n, max.value - n, MaximumLen(sub).value);
      }
  }

  lemma {:induction false} AllBounded(subs: seq<Hir>, w: seq<byte>)
    requires SpellsAll(subs, w)
    ensures SumLen(subs).Some? ==> |w| <= SumLen(subs).value
    ensures LF in w ==> SomeConsumes(subs)
    decreases subs, 0
  {
    if subs != [] {
      var a, b :| w == a + b && Spells(subs[0], a) && SpellsAll(subs[1..], b);
      TextIsBounded(subs[0], a);
      AllBounded(subs[1..], b);
    }
  }

  lemma {:induction false} OneOfBounded(subs: seq<Hir>, k: nat)
    requires k < |subs|
    ensures LongestLen(subs).Some? ==> MaximumLen(subs[k]).Some? && MaximumLen(subs[k]).value <= LongestLen(subs).value
    ensures ConsumesNewline(subs[k]) ==> SomeConsumes(subs)
    decreases |subs|
  {
    if k > 0 {
      OneOfBounded(subs[1..], k - 1);
    }
  }

  lemma {:induction false} TimesBounded(sub: Hir, n: nat, w: seq<byte>)
    requires SpellsTimes(sub, n, w)
    ensures MaximumLen(sub).Some? ==> |w| <= Total(n, MaximumLen(sub).value)
    ensures LF in w ==> n > 0 && ConsumesNewline(sub)
    decreases sub, 1, n
  {
    if n > 0 {
      var a, b :| w == a + b && Spells(sub, a) && SpellsTimes(sub, n - 1, b);
      TextIsBounded(sub, a);
      TimesBounded(sub, n - 1, b);
    }
  }

  // ---- the bound is met ---------------------------------------------------------------

  /** `n` bytes are as long as `len` says: exactly, or past what a buffer can hold. */
  ghost predicate AsLong(len: Option<nat>, n: nat) {
    if len.Some? then n == len.value else n > USIZE_MAX
  }

  ghost function Repeat(w: seq<byte>, n: nat): seq<byte> {
    if n == 0 then [] else w + Repeat(w, n - 1)
  }

  lemma {:induction false} RepeatSpells(sub: Hir, w: seq<byte>, n: nat)
    requires Spells(sub, w)
    ensures SpellsTimes(sub, n, Repeat(w, n)) && |Repeat(w, n)| == |w| * n
    ensures n > 0 && LF in w ==> LF in Repeat(w, n)
    decreases n
  {
    if n > 0 {
      RepeatSpells(sub, w, n - 1);
      assert |w| * n == |w| + |w| * (n - 1);
    }
  }

  lemma {:induction false} HighestIsThere(ranges: seq<Range>) returns (k: nat)
    requires ranges != []
    ensures k < |ranges| && ranges[k].hi == HighestCode(ranges)
  {
    if |ranges| == 1 || ranges[0].hi == HighestCode(ranges) {
      k := 0;
    } else {
      var j := HighestIsThere(ranges[1..]);
      k := j + 1;
    }
  }

  lemma RangeHolds(ranges: seq<Range>, k: nat)
    requires k < |ranges| && ranges[k].lo <= ranges[k].hi
    ensures InRanges(ranges[k].hi, ranges)
  {
  }

  lemma LongClass(ranges: seq<Range>) returns (w: seq<byte>)
    requires Proper(UnicodeClass(ranges))
    ensures Spells(UnicodeClass(ranges), w) && |w| == Utf8Len(HighestCode(ranges))
  {
    var k := HighestIsThere(ranges);
    w := Encode(ranges[k].hi);
    EncodingShape(w);
    RangeHolds(ranges, k);
  }

  /** How often a loop runs to be as long as it can be. */
  ghost function LongRun(len: Option<nat>, min: nat, max: Option<nat>): nat {
    if max.Some? && len.Some? then max.value
    else if max.None? && len.Some? then Max(min, USIZE_MAX + 1)
    else Max(min, 1)
  }

  lemma LongRunIsLong(len: Option<nat>, min: nat, max: Option<nat>, n: nat)
    requires AsLong(len, n) && (if max.Some? then min <= max.value && max.value > 0 else len != Some(0))
    ensures var r := LongRun(len, min, max);
      && Allowed(min, max, r)
      && AsLong(if max.Some? && len.Some? then CheckedMul(len.value, max.value) else None, n * r)
  {
    var r := LongRun(len, min, max);
    if len.None? {
      assert n * r >= n by { MulAtLeast(n, r); }
    } else if max.None? {
      assert n * r >= r by { MulAtLeast(r, n); }
    }
  }

  lemma MulAtLeast(a: nat, b: nat)
    requires b >= 1
    ensures a * b >= a && b * a >= a
  {
  }

  /** Some text is exactly as long as the maximum, or too long for any buffer. */
  lemma {:induction false} LongText(t: Hir) returns (w: seq<byte>)
    requires Proper(t)
    ensures Spells(t, w) && AsLong(MaximumLen(t), |w|)
    decreases t, 0
  {
    match t
    case Empty => w := [];
    case Assert(_) => w := [];
    case Literal(bytes) => w := bytes;
    case ByteClass(ranges) =>
      w := [ranges[0].hi];
      RangeHolds(ranges, 0);
    case UnicodeClass(ranges) => w := LongClass(ranges);
    case Capture(sub) => w := LongText(sub);
    case Concat(subs) => w := LongTexts(subs);
    case Alternation(subs) =>
      var k;
      k, w := LongChoice(subs);
    case Repetition(sub, min, max, _) =>
      var one := LongText(sub);
      var n := LongRun(MaximumLen(sub), min, max);
      LongRunIsLong(MaximumLen(sub), min, max, |one|);
      RepeatSpells(sub, one, n);
      w := Repeat(one, n);
  }

  lemma {:induction false} LongTexts(subs: seq<Hir>) returns (w: seq<byte>)
    requires forall k :: 0 <= k < |subs| ==> Proper(subs[k])
    ensures SpellsAll(subs, w) && AsLong(SumLen(subs), |w|)
    decreases subs, 0
  {
    if subs == [] {
      w := [];
    } else {
      var a := LongText(subs[0]);
      var b := LongTexts(subs[1..]);
      w := a + b;
    }
  }

  lemma {:induction false} LongChoice(subs: seq<Hir>) returns (k: nat, w: seq<byte>)
    requires subs != [] && forall k :: 0 <= k < |subs| ==> Proper(subs[k])
    ensures k < |subs| && Spells(subs[k], w) && AsLong(LongestLen(subs), |w|)
    decreases subs, 0
  {
    w := LongText(subs[0]);
    k := 0;
    if |subs| > 1 {
      var j, v := LongChoice(subs[1..]);
      if |v| > |w| { k, w := j + 1, v; }
    }
  }

  /** A pattern that consumes newlines has a text that holds one. */
  lemma {:induction false} NewlineText(t: Hir) returns (w: seq<byte>)
    requires Proper(t) && ConsumesNewline(t)
    ensures Spells(t, w) && LF in w
    decreases t, 0
  {
    match t
    case Literal(bytes) => w := bytes;
    case ByteClass(ranges) => w := [LF];
    case UnicodeClass(ranges) => w := [LF];
    case Capture(sub) => w := NewlineText(sub);
    case Concat(subs) => w := NewlineTexts(subs);
    case Alternation(subs) =>
      var k;
      k, w := NewlineChoice(subs);
    case Repetition(sub, min, max, _) =>
      var one := NewlineText(sub);
      var n := Max(min, 1);
      RepeatSpells(sub, one, n);
      assert Allowed(min, max, n);
      w := Repeat(one, n);
  }

  lemma {:induction false} NewlineTexts(subs: seq<Hir>) returns (w: seq<byte>)
    requires SomeConsumes(subs) && forall k :: 0 <= k < |subs| ==> Proper(subs[k])
    ensures SpellsAll(subs, w) && LF in w
    decreases subs, 0
  {
    var a, b;
    if ConsumesNewline(subs[0]) {
      a := NewlineText(subs[0]);
      b := LongTexts(subs[1..]);
    } else {
      a := LongText(subs[0]);
      b := NewlineTexts(subs[1..]);
    }
    w := a + b;
  }

  lemma {:induction false} NewlineChoice(subs: seq<Hir>) returns (k: nat, w: seq<byte>)
    requires SomeConsumes(subs) && forall k :: 0 <= k < |subs| ==> Proper(subs[k])
    ensures k < |subs| && Spells(subs[k], w) && LF in w
    decreases subs, 0
  {
    if ConsumesNewline(subs[0]) {
      w := NewlineText(subs[0]);
      k := 0;
    } else {
      var j;
      j, w := NewlineChoice(subs[1..]);
      k := j + 1;
    }
  }

  // ---- look-ahead ----------------------------------------------------------------------

  lemma {:induction false} NowhereIsNoLook(t: Hir)
    ensures Ahead(t).Nowhere? <==> !LooksAhead(t)
    decreases t, 0
  {
    match t
    case Capture(sub) => NowhereIsNoLook(sub);
    case Repetition(sub, _, _, _) => NowhereIsNoLook(sub);
    case Concat(subs) => NowhereInTurn(subs, Some(0));
    case Alternation(subs) => NowhereInAny(subs);
    case _ =>
  }

  lemma {:induction false} NowhereInTurn(subs: seq<Hir>, offset: Option<nat>)
    ensures ConcatAhead(subs, offset).Nowhere? <==> forall k :: 0 <= k < |subs| ==> !LooksAhead(subs[k])
    decreases subs, 0
  {
    if subs != [] {
      NowhereIsNoLook(subs[0]);
      var longest := MaximumLen(subs[0]);
      var next := if offset.Some? && longest.Some? then CheckedAdd(offset.value, longest.value) else None;
      NowhereInTurn(subs[1..], next);
      assert forall k :: 0 < k < |subs| ==> subs[k] == subs[1..][k - 1];
    }
  }

  lemma {:induction false} NowhereInAny(subs: seq<Hir>)
    ensures FurthestAhead(subs).Nowhere? <==> forall k :: 0 <= k < |subs| ==> !LooksAhead(subs[k])
    decreases subs, 0
  {
    if subs != [] {
      NowhereIsNoLook(subs[0]);
      NowhereInAny(subs[1..]);
      assert forall k :: 0 < k < |subs| ==> subs[k] == subs[1..][k - 1];
    }
  }

  /** No assertion looks past the reach. */
  lemma {:induction false} LookIsBounded(t: Hir, w: seq<byte>)
    requires LooksAfter(t, w) && MaximumLen(t).Some?
    ensures Ahead(t).Offset? && |w| <= Ahead(t).at
    decreases t, 0
  {
    match t
    case Assert(_) =>
    case Capture(sub) => LookIsBounded(sub, w);
    case Concat(subs) => LookInTurnBounded(subs, 0, w);
    case Alternation(subs) =>
      var k :| 0 <= k < |subs| && LooksAfter(subs[k], w);
      LookInAnyBounded(subs, k, w);
    case Repetition(sub, _, _, _) =>
      NowhereIsNoLook(sub);
      TextIsBounded(t, w);
  }

  lemma {:induction false} LookInTurnBounded(subs: seq<Hir>, offset: nat, w: seq<byte>)
    requires LooksAfterSome(subs, w) && SumLen(subs).Some? && offset + SumLen(subs).value <= USIZE_MAX
    ensures var r := ConcatAhead(subs, Some(offset)); r.Offset? && offset + |w| <= r.at
    decreases subs, 0
  {
    ConcatReach(subs, offset);
    if LooksAfter(subs[0], w) {
      LookIsBounded(subs[0], w);
      ReachWithinLen(subs[0]);
    } else {
      var a, b :| w == a + b && Spells(subs[0], a) && LooksAfterSome(subs[1..], b);
      TextIsBounded(subs[0], a);
      LookInTurnBounded(subs[1..], offset + MaximumLen(subs[0]).value, b);
    }
  }

  lemma {:induction false} LookInAnyBounded(subs: seq<Hir>, k: nat, w: seq<byte>)
    requires k < |subs| && LooksAfter(subs[k], w) && LongestLen(subs).Some?
    ensures FurthestAhead(subs).Offset? && |w| <= FurthestAhead(subs).at
    decreases subs, 0
  {
    AlternationReach(subs);
    if k == 0 {
      LookIsBounded(subs[0], w);
    } else {
      LookInAnyBounded(subs[1..], k - 1, w);
    }
  }

  /** Some assertion looks exactly that far. */
  lemma {:induction false} FarLook(t: Hir) returns (w: seq<byte>)
    requires Proper(t) && MaximumLen(t).Some? && Ahead(t).Offset?
    ensures LooksAfter(t, w) && |w| == Ahead(t).at
    decreases t, 0
  {
    match t
    case Assert(_) => w := [];
    case Capture(sub) => w := FarLook(sub);
    case Concat(subs) => w := FarLookInTurn(subs, 0);
    case Alternation(subs) =>
      var k;
      k, w := FarLookInAny(subs);
    case Repetition(sub, _, _, _) =>
      NowhereIsNoLook(sub);
      w := LongText(t);
  }

  lemma {:induction false} FarLookInTurn(subs: seq<Hir>, offset: nat) returns (w: seq<byte>)
    requires (forall k :: 0 <= k < |subs| ==> Proper(subs[k])) && ConcatAhead(subs, Some(offset)).Offset?
    requires SumLen(subs).Some? && offset + SumLen(subs).value <= USIZE_MAX
    ensures LooksAfterSome(subs, w) && offset + |w| == ConcatAhead(subs, Some(offset)).at
    decreases subs, 0
  {
    ReachWithinLen(subs[0]);
    var next := offset + MaximumLen(subs[0]).value;
    var rest := ConcatAhead(subs[1..], Some(next));
    if rest.Nowhere? || (Ahead(subs[0]).Offset? && offset + Ahead(subs[0]).at >= rest.at) {
      w := FarLook(subs[0]);
    } else {
      var a := LongText(subs[0]);
      var b := FarLookInTurn(subs[1..], next);
      w := a + b;
    }
  }

  lemma {:induction false} FarLookInAny(subs: seq<Hir>) returns (k: nat, w: seq<byte>)
    requires (forall k :: 0 <= k < |subs| ==> Proper(subs[k])) && FurthestAhead(subs).Offset? && LongestLen(subs).Some?
    ensures k < |subs| && LooksAfter(subs[k], w) && |w| == FurthestAhead(subs).at
    decreases subs, 0
  {
    var rest := FurthestAhead(subs[1..]);
    if rest.Nowhere? || (Ahead(subs[0]).Offset? && Ahead(subs[0]).at >= rest.at) {
      w := FarLook(subs[0]);
      k := 0;
    } else {
      var j;
      j, w := FarLookInAny(subs[1..]);
      k := j + 1;
    }
  }

  // ---- exactly what a shape calls final --------------------------------------------------

  /** From a start at `s`, some text of the pattern takes or looks at a byte that `hay` does
    * not have; and either some text holds an LF or no LF is left to stop it. */
  ghost predicate OpenAt(t: Hir, s: nat, hay: seq<byte>) {
    && (|| (exists w :: Spells(t, w) && s + |w| > |hay|)
        || (exists w :: LooksAfter(t, w) && s + |w| >= |hay|))
    && ((exists w :: Spells(t, w) && LF in w) || forall k :: s <= k < |hay| ==> hay[k] != LF)
  }

  /** A shape calls a start final exactly when it is not open. */
  lemma FinalExactly(t: Hir, s: nat, buf: Buffer)
    requires Proper(t) && buf.Valid()
    ensures ShapeOf(t).FinalAt(s, buf) <==> !OpenAt(t, s, buf.hay)
  {
    hide Spells, LooksAfter, MaximumLen, Ahead, ConsumesNewline;
    HorizonExactly(t, s, |buf.hay|);
    LineExactly(t);
    var shape := ShapeOf(t);
  }

  lemma LineExactly(t: Hir)
    requires Proper(t)
    ensures ConsumesNewline(t) <==> exists w :: Spells(t, w) && LF in w
  {
    if ConsumesNewline(t) {
      var w := NewlineText(t);
    }
    if w :| Spells(t, w) && LF in w {
      TextIsBounded(t, w);
    }
  }

  /** The horizon is the least number of bytes that holds every text and every look. */
  lemma HorizonExactly(t: Hir, s: nat, n: nat)
    requires Proper(t) && n <= ISIZE_MAX
    ensures var h := ShapeOf(t).horizon;
      h.Some? && SaturatingAdd(s, h.value) <= n <==>
        && (forall w :: Spells(t, w) ==> s + |w| <= n)
        && (forall w :: LooksAfter(t, w) ==> s + |w| < n)
  {
    hide Spells, LooksAfter, MaximumLen, Ahead, ConsumesNewline;
    var long := LongText(t);
    if MaximumLen(t).Some? {
      ReachWithinLen(t);
      forall w | Spells(t, w)
        ensures |w| <= |long|
      {
        TextIsBounded(t, w);
      }
      forall w | LooksAfter(t, w)
        ensures Ahead(t).Offset? && |w| <= Ahead(t).at
      {
        LookIsBounded(t, w);
      }
      if Ahead(t).Offset? {
        var far := FarLook(t);
      }
    }
  }

  // ---- and in terms of matches -------------------------------------------------------------

  lemma {:induction false} NoAssertionNoLook(t: Hir)
    requires AssertionFree(t)
    ensures !LooksAhead(t)
    decreases t
  {
    match t
    case Capture(sub) => NoAssertionNoLook(sub);
    case Repetition(sub, _, _, _) => NoAssertionNoLook(sub);
    case Concat(subs) =>
      forall k | 0 <= k < |subs| ensures !LooksAhead(subs[k]) { NoAssertionNoLook(subs[k]); }
    case Alternation(subs) =>
      forall k | 0 <= k < |subs| ensures !LooksAhead(subs[k]) { NoAssertionNoLook(subs[k]); }
    case _ =>
  }

  /** Without assertions the horizon is the length of the longest match of any text, and no
    * horizon means a match longer than any buffer. */
  lemma HorizonIsLongestMatch(t: Hir) returns (h: seq<byte>)
    requires Proper(t) && AssertionFree(t)
    ensures |h| in Ends(t, h, 0) && AsLong(ShapeOf(t).horizon, |h|)
    ensures ShapeOf(t).horizon.Some? ==>
      forall a: seq<byte>, i: nat, e: nat :: i <= |a| && e in Ends(t, a, i) ==> e - i <= |h|
  {
    hide Ends, Spells, MaximumLen, Ahead, Matches;
    h := LongText(t);
    NoAssertionNoLook(t);
    NowhereIsNoLook(t);
    assert h[0..|h|] == h;
    SpeltIsMatched(t, h, 0, |h|);
    EndsAreMatches(t, h, 0, |h|);
    if MaximumLen(t).Some? {
      forall a: seq<byte>, i: nat, e: nat | i <= |a| && e in Ends(t, a, i)
        ensures e - i <= |h|
      {
        EndsAreMatches(t, a, i, e);
        MatchSpells(t, a, i, e);
        TextIsBounded(t, a[i..e]);
      }
    }
  }

  /** Without assertions a pattern is line-local exactly when no match holds an LF. */
  lemma LineLocalExactly(t: Hir)
    requires Proper(t) && AssertionFree(t)
    ensures ShapeOf(t).lineLocal <==>
      forall a: seq<byte>, i: nat, e: nat :: i <= e <= |a| && e in Ends(t, a, i) ==> LF !in a[i..e]
  {
    hide Ends, Spells, MaximumLen, Ahead, Matches, ConsumesNewline;
    if ConsumesNewline(t) {
      var h := NewlineText(t);
      assert h[0..|h|] == h;
      SpeltIsMatched(t, h, 0, |h|);
      EndsAreMatches(t, h, 0, |h|);
    } else {
      forall a: seq<byte>, i: nat, e: nat | i <= e <= |a| && e in Ends(t, a, i)
        ensures LF !in a[i..e]
      {
        EndsAreMatches(t, a, i, e);
        MatchSpells(t, a, i, e);
        TextIsBounded(t, a[i..e]);
      }
    }
  }
}
