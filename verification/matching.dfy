/** What a pattern matches, said without an order of search. */
module Matching {
  import opened Base
  import opened Utf8
  import opened Pattern

  // `Matches` relates a start and an end as a grammar would: parts one after another, some
  // alternative, some number of iterations. The ordered ends of `Pattern` are exactly the
  // related ones, so the rule that drops an empty iteration loses no match.

  ghost predicate Matches(t: Hir, h: seq<byte>, i: nat, e: nat)
    decreases t, 0
  {
    match t
    case Empty => e == i <= |h|
    case Literal(w) => e == i + |w| && Occurs(w, h, i)
    case ByteClass(ranges) => e == i + 1 <= |h| && InRanges(h[i], ranges)
    case UnicodeClass(ranges) => i < e <= i + 4 && EncodesMember(h, i, e - i, ranges)
    case Assert(look) => e == i <= |h| && Holds(look, Before(h, i), At(h, i))
    case Capture(sub) => Matches(sub, h, i, e)
    case Concat(subs) => InTurn(subs, h, i, e)
    case Alternation(subs) => exists k :: 0 <= k < |subs| && Matches(subs[k], h, i, e)
    case Repetition(sub, min, max, _) => exists n: nat :: Allowed(min, max, n) && Iterates(sub, n, h, i, e)
  }

  /** A loop `{min,max}` may run `n` times. */
  predicate Allowed(min: nat, max: Option<nat>, n: nat) {
    min <= n && (max.Some? ==> n <= max.value)
  }

  ghost predicate InTurn(subs: seq<Hir>, h: seq<byte>, i: nat, e: nat)
    decreases subs, 0
  {
    if subs == [] then e == i <= |h|
    else exists m: nat :: Matches(subs[0], h, i, m) && InTurn(subs[1..], h, m, e)
  }

  ghost predicate Iterates(sub: Hir, n: nat, h: seq<byte>, i: nat, e: nat)
    decreases sub, 1, n
  {
    if n == 0 then e == i <= |h|
    else exists m: nat :: Matches(sub, h, i, m) && Iterates(sub, n - 1, h, m, e)
  }

  // ---- the ordered ends are the matches ---------------------------------------------

  lemma {:induction false} EndsAreMatches(t: Hir, h: seq<byte>, i: nat, e: nat)
    requires i <= |h|
    ensures e in Ends(t, h, i) <==> Matches(t, h, i, e)
    decreases t, 3
  {
    match t
    case Empty =>
    case Literal(_) =>
    case ByteClass(_) =>
    case Assert(_) =>
    case UnicodeClass(ranges) => OneLength(h, i, ranges, e);
    case Capture(sub) => EndsAreMatches(sub, h, i, e);
    case Concat(subs) =>
      InTurnEnds(subs, h, i, [i], e);
      assert i in [i];
    case Alternation(subs) => SomeEnds(subs, h, i, e);
    case Repetition(sub, min, max, greedy) =>
      if max.None? {
        UnboundedEnds(sub, min, greedy, h, i, e);
      } else if min <= max.value {
        BoundedEnds(sub, min, max.value, greedy, h, i, e);
      }
  }

  /** UTF-8 is prefix-free. */
  lemma PointsApart(h: seq<byte>, i: nat, j: nat, k: nat)
    requires i + j <= |h| && i + k <= |h| && CodePoint(h[i..i + j]).Some? && CodePoint(h[i..i + k]).Some?
    ensures j == k
  {
    var a: seq<int>, b: seq<int> := h[i..i + j], h[i..i + k];
    assert a != [] && b != [] && a[0] == h[i] == b[0];
  }

  lemma OneLength(h: seq<byte>, i: nat, ranges: seq<Range>, e: nat)
    requires i <= |h|
    ensures e in UnicodeEnds(h, i, ranges) <==> Matches(UnicodeClass(ranges), h, i, e)
  {
    hide CodePoint, InRanges;
    if Matches(UnicodeClass(ranges), h, i, e) {
      forall k | 1 <= k <= 4 && EncodesMember(h, i, k, ranges)
        ensures i + k == e
      {
        PointsApart(h, i, k, e - i);
      }
    }
  }

  lemma FirstPart(subs: seq<Hir>, h: seq<byte>, i: nat, e: nat) returns (m: nat)
    requires subs != [] && InTurn(subs, h, i, e)
    ensures Matches(subs[0], h, i, m) && InTurn(subs[1..], h, m, e)
  {
    m :| Matches(subs[0], h, i, m) && InTurn(subs[1..], h, m, e);
  }

  lemma FirstIteration(sub: Hir, n: nat, h: seq<byte>, i: nat, e: nat) returns (m: nat)
    requires n > 0 && Iterates(sub, n, h, i, e)
    ensures Matches(sub, h, i, m) && Iterates(sub, n - 1, h, m, e)
  {
    m :| Matches(sub, h, i, m) && Iterates(sub, n - 1, h, m, e);
  }

  lemma {:induction false} FromEnds(t: Hir, h: seq<byte>, lo: nat, starts: seq<nat>, e: nat)
    requires Within(starts, lo, |h|)
    ensures e in EndsFrom(t, h, lo, starts) <==> exists s: nat :: s in starts && Matches(t, h, s, e)
    decreases t, 4, |starts|
  {
    if starts != [] {
      EndsAreMatches(t, h, starts[0], e);
      FromEnds(t, h, lo, starts[1..], e);
    }
  }

  lemma {:induction false} InTurnEnds(subs: seq<Hir>, h: seq<byte>, lo: nat, starts: seq<nat>, e: nat)
    requires Within(starts, lo, |h|)
    ensures e in ConcatEnds(subs, h, lo, starts) <==> exists s: nat :: s in starts && InTurn(subs, h, s, e)
    decreases subs, 0
  {
    hide Ends, EndsFrom, Matches;
    if subs != [] {
      var mids := EndsFrom(subs[0], h, lo, starts);
      InTurnEnds(subs[1..], h, lo, mids, e);
      if m: nat :| m in mids && InTurn(subs[1..], h, m, e) {
        FromEnds(subs[0], h, lo, starts, m);
        var s: nat :| s in starts && Matches(subs[0], h, s, m);
        assert InTurn(subs, h, s, e);
      }
      if s: nat :| s in starts && InTurn(subs, h, s, e) {
        var m := FirstPart(subs, h, s, e);
        FromEnds(subs[0], h, lo, starts, m);
      }
    } else {
      assert forall s: nat :: InTurn(subs, h, s, e) <==> e == s <= |h|;
    }
  }

  lemma {:induction false} SomeEnds(subs: seq<Hir>, h: seq<byte>, i: nat, e: nat)
    requires i <= |h|
    ensures e in AlternationEnds(subs, h, i) <==> exists k :: 0 <= k < |subs| && Matches(subs[k], h, i, e)
    decreases subs, 0
  {
    if subs != [] {
      EndsAreMatches(subs[0], h, i, e);
      SomeEnds(subs[1..], h, i, e);
      assert forall k :: 0 < k < |subs| ==> subs[k] == subs[1..][k - 1];
    }
  }

  // ---- loops ------------------------------------------------------------------------

  lemma {:induction false} TimesEnds(sub: Hir, k: nat, h: seq<byte>, lo: nat, starts: seq<nat>, e: nat)
    requires Within(starts, lo, |h|)
    ensures e in Times(sub, k, h, lo, starts) <==> exists s: nat :: s in starts && Iterates(sub, k, h, s, e)
    decreases sub, 5, k
  {
    hide Ends, EndsFrom, Matches;
    if k > 0 {
      var mids := EndsFrom(sub, h, lo, starts);
      TimesEnds(sub, k - 1, h, lo, mids, e);
      if m: nat :| m in mids && Iterates(sub, k - 1, h, m, e) {
        FromEnds(sub, h, lo, starts, m);
        var s: nat :| s in starts && Matches(sub, h, s, m);
        assert Iterates(sub, k, h, s, e);
      }
      if s: nat :| s in starts && Iterates(sub, k, h, s, e) {
        var m := FirstIteration(sub, k, h, s, e);
        FromEnds(sub, h, lo, starts, m);
      }
    } else {
      assert forall s: nat :: Iterates(sub, k, h, s, e) <==> e == s <= |h|;
    }
  }

  lemma TimesAre(sub: Hir, k: nat, h: seq<byte>, i: nat, e: nat)
    requires i <= |h|
    ensures e in Times(sub, k, h, i, [i]) <==> Iterates(sub, k, h, i, e)
    decreases sub, 5, k + 1
  {
    TimesEnds(sub, k, h, i, [i], e);
    assert i in [i];
  }

  /** Iterations add up. */
  lemma {:induction false} IteratesThen(sub: Hir, j: nat, k: nat, h: seq<byte>, i: nat, m: nat, e: nat)
    requires Iterates(sub, j, h, i, m) && Iterates(sub, k, h, m, e)
    ensures Iterates(sub, j + k, h, i, e)
    decreases j
  {
    if j > 0 {
      var x: nat :| Matches(sub, h, i, x) && Iterates(sub, j - 1, h, x, m);
      IteratesThen(sub, j - 1, k, h, x, m, e);
    }
  }

  lemma {:induction false} IteratesSplit(sub: Hir, j: nat, k: nat, h: seq<byte>, i: nat, e: nat) returns (m: nat)
    requires Iterates(sub, j + k, h, i, e)
    ensures Iterates(sub, j, h, i, m) && Iterates(sub, k, h, m, e)
    decreases j
  {
    if j == 0 {
      IteratesBounds(sub, k, h, i, e);
      m := i;
    } else {
      var x: nat :| Matches(sub, h, i, x) && Iterates(sub, j + k - 1, h, x, e);
      m := IteratesSplit(sub, j - 1, k, h, x, e);
    }
  }

  lemma {:induction false} MatchBounds(t: Hir, h: seq<byte>, i: nat, e: nat)
    requires Matches(t, h, i, e)
    ensures i <= e <= |h|
    decreases t, 0
  {
    match t
    case Capture(sub) => MatchBounds(sub, h, i, e);
    case Concat(subs) => InTurnBounds(subs, h, i, e);
    case Alternation(subs) =>
      var k :| 0 <= k < |subs| && Matches(subs[k], h, i, e);
      MatchBounds(subs[k], h, i, e);
    case Repetition(sub, min, max, _) =>
      var n: nat :| Allowed(min, max, n) && Iterates(sub, n, h, i, e);
      IteratesBounds(sub, n, h, i, e);
    case _ =>
  }

  lemma {:induction false} InTurnBounds(subs: seq<Hir>, h: seq<byte>, i: nat, e: nat)
    requires InTurn(subs, h, i, e)
    ensures i <= e <= |h|
    decreases subs, 0
  {
    if subs != [] {
      var m: nat :| Matches(subs[0], h, i, m) && InTurn(subs[1..], h, m, e);
      MatchBounds(subs[0], h, i, m);
      InTurnBounds(subs[1..], h, m, e);
    }
  }

  lemma {:induction false} IteratesBounds(sub: Hir, n: nat, h: seq<byte>, i: nat, e: nat)
    requires Iterates(sub, n, h, i, e)
    ensures i <= e <= |h|
    decreases sub, 1, n
  {
    if n > 0 {
      var m: nat :| Matches(sub, h, i, m) && Iterates(sub, n - 1, h, m, e);
      MatchBounds(sub, h, i, m);
      IteratesBounds(sub, n - 1, h, m, e);
    }
  }

  lemma {:induction false} PlusAfterIs(sub: Hir, greedy: bool, h: seq<byte>, i: nat, ends: seq<nat>, e: nat)
    requires i <= |h| && Within(ends, i, |h|)
    ensures e in PlusAfter(sub, greedy, h, i, ends) <==>
      exists m: nat :: m in ends && i <= m <= |h| && e in PlusOnce(sub, greedy, h, i, m)
    decreases |ends|
  {
    hide PlusOnce;
    if ends != [] {
      PlusAfterIs(sub, greedy, h, i, ends[1..], e);
      assert ends[0] in ends;
    }
  }

  lemma PlusOnceIs(sub: Hir, greedy: bool, h: seq<byte>, i: nat, m: nat, e: nat)
    requires i <= m <= |h|
    ensures e in PlusOnce(sub, greedy, h, i, m) <==> e == m || (m > i && e in PlusEnds(sub, greedy, h, m))
  {
    hide PlusEnds;
  }

  /** Whatever the loop lists was reached by one or more iterations. */
  lemma {:induction false} PlusCounts(sub: Hir, greedy: bool, h: seq<byte>, i: nat, e: nat) returns (n: nat)
    requires i <= |h| && e in PlusEnds(sub, greedy, h, i)
    ensures n >= 1 && Iterates(sub, n, h, i, e)
    decreases sub, 6, |h| - i
  {
    hide Ends, PlusAfter, PlusOnce, Matches;
    PlusAfterIs(sub, greedy, h, i, Ends(sub, h, i), e);
    var m: nat :| m in Ends(sub, h, i) && i <= m <= |h| && e in PlusOnce(sub, greedy, h, i, m);
    PlusOnceIs(sub, greedy, h, i, m, e);
    EndsAreMatches(sub, h, i, m);
    if e == m {
      assert Iterates(sub, 0, h, m, e);
      n := 1;
    } else {
      var k := PlusCounts(sub, greedy, h, m, e);
      n := k + 1;
    }
  }

  /** An iteration that consumed nothing can be left out. */
  lemma {:induction false} PlusReaches(sub: Hir, greedy: bool, n: nat, h: seq<byte>, i: nat, e: nat)
    requires i <= |h| && n >= 1 && Iterates(sub, n, h, i, e)
    ensures e in PlusEnds(sub, greedy, h, i)
    decreases sub, 6, n
  {
    var m: nat :| Matches(sub, h, i, m) && Iterates(sub, n - 1, h, m, e);
    MatchBounds(sub, h, i, m);
    EndsAreMatches(sub, h, i, m);
    if n > 1 {
      PlusReaches(sub, greedy, n - 1, h, m, e);
    }
    if m > i || n == 1 {
      assert e in PlusOnce(sub, greedy, h, i, m);
      PlusAfterIs(sub, greedy, h, i, Ends(sub, h, i), e);
    }
  }

  lemma {:induction false} PlusFromIs(sub: Hir, greedy: bool, h: seq<byte>, lo: nat, starts: seq<nat>, e: nat)
    requires Within(starts, lo, |h|)
    ensures e in PlusFrom(sub, greedy, h, lo, starts) <==>
      exists s: nat :: s in starts && s <= |h| && e in PlusEnds(sub, greedy, h, s)
    decreases |starts|
  {
    hide PlusEnds;
    if starts != [] {
      PlusFromIs(sub, greedy, h, lo, starts[1..], e);
      assert starts[0] in starts;
    }
  }

  lemma {:induction false} UnboundedEnds(sub: Hir, min: nat, greedy: bool, h: seq<byte>, i: nat, e: nat)
    requires i <= |h|
    ensures e in Ends(Repetition(sub, min, None, greedy), h, i) <==>
      exists n: nat :: Allowed(min, None, n) && Iterates(sub, n, h, i, e)
    decreases sub, 8
  {
    hide PlusEnds, PlusFrom, Times;
    var t := Repetition(sub, min, None, greedy);
    var less := if min == 0 then 0 else min - 1;
    var starts := Times(sub, less, h, i, [i]);
    if n: nat :| Allowed(min, None, n) && Iterates(sub, n, h, i, e) {
      if n > less {
        var m := IteratesSplit(sub, less, n - less, h, i, e);
        IteratesBounds(sub, less, h, i, m);
        TimesAre(sub, less, h, i, m);
        PlusReaches(sub, greedy, n - less, h, m, e);
        PlusFromIs(sub, greedy, h, i, starts, e);
        if min == 0 { IteratesBounds(sub, 0, h, i, m); }
      } else {
        assert e == i;
      }
    }
    if e in Ends(t, h, i) {
      if min == 0 && e in PlusEnds(sub, greedy, h, i) {
        var n := PlusCounts(sub, greedy, h, i, e);
      } else if min == 0 {
        assert Iterates(sub, 0, h, i, e);
      } else {
        PlusFromIs(sub, greedy, h, i, starts, e);
        var s: nat :| s in starts && s <= |h| && e in PlusEnds(sub, greedy, h, s);
        TimesAre(sub, less, h, i, s);
        var n := PlusCounts(sub, greedy, h, s, e);
        IteratesThen(sub, less, n, h, i, s, e);
      }
    }
  }

  lemma {:induction false} OptionsAre(sub: Hir, greedy: bool, k: nat, h: seq<byte>, i: nat, e: nat)
    requires i <= |h|
    ensures e in Options(sub, greedy, k, h, i) <==> exists n: nat :: Allowed(0, Some(k), n) && Iterates(sub, n, h, i, e)
    decreases sub, 6, k
  {
    hide OptionsFrom, Ends, Matches;
    if e == i {
      assert Allowed(0, Some(k), 0) && Iterates(sub, 0, h, i, e);
    } else if k > 0 {
      OptionsFromAre(sub, greedy, k - 1, h, i, Ends(sub, h, i), e);
      if m: nat :| m in Ends(sub, h, i) && m <= |h| && e in Options(sub, greedy, k - 1, h, m) {
        OptionsAre(sub, greedy, k - 1, h, m, e);
        EndsAreMatches(sub, h, i, m);
        var n: nat :| Allowed(0, Some(k - 1), n) && Iterates(sub, n, h, m, e);
        assert Allowed(0, Some(k), n + 1) && Iterates(sub, n + 1, h, i, e);
      }
      if n: nat :| Allowed(0, Some(k), n) && Iterates(sub, n, h, i, e) {
        var m := FirstIteration(sub, n, h, i, e);
        MatchBounds(sub, h, i, m);
        EndsAreMatches(sub, h, i, m);
        assert Allowed(0, Some(k - 1), n - 1);
        OptionsAre(sub, greedy, k - 1, h, m, e);
      }
    }
  }

  lemma {:induction false} OptionsFromAre(
    sub: Hir, greedy: bool, k: nat, h: seq<byte>, lo: nat, starts: seq<nat>, e: nat)
    requires Within(starts, lo, |h|)
    ensures e in OptionsFrom(sub, greedy, k, h, lo, starts) <==>
      exists s: nat :: s in starts && s <= |h| && e in Options(sub, greedy, k, h, s)
    decreases |starts|
  {
    hide Options;
    if starts != [] {
      OptionsFromAre(sub, greedy, k, h, lo, starts[1..], e);
      assert starts[0] in starts;
    }
  }

  lemma {:induction false} BoundedEnds(sub: Hir, min: nat, max: nat, greedy: bool, h: seq<byte>, i: nat, e: nat)
    requires i <= |h| && min <= max
    ensures e in Ends(Repetition(sub, min, Some(max), greedy), h, i) <==>
      exists n: nat :: Allowed(min, Some(max), n) && Iterates(sub, n, h, i, e)
    decreases sub, 8
  {
    hide OptionsFrom, Options, Times, Iterates;
    var starts := Times(sub, min, h, i, [i]);
    OptionsFromAre(sub, greedy, max - min, h, i, starts, e);
    if n: nat :| Allowed(min, Some(max), n) && Iterates(sub, n, h, i, e) {
      var m := IteratesSplit(sub, min, n - min, h, i, e);
      IteratesBounds(sub, min, h, i, m);
      TimesAre(sub, min, h, i, m);
      assert Allowed(0, Some(max - min), n - min);
      OptionsAre(sub, greedy, max - min, h, m, e);
    }
    if s: nat :| s in starts && s <= |h| && e in Options(sub, greedy, max - min, h, s) {
      TimesAre(sub, min, h, i, s);
      OptionsAre(sub, greedy, max - min, h, s, e);
      var n: nat :| Allowed(0, Some(max - min), n) && Iterates(sub, n, h, s, e);
      IteratesThen(sub, min, n, h, i, s, e);
      assert Allowed(min, Some(max), min + n);
    }
  }

  // ---- the order of a loop's ends ---------------------------------------------------

  /** `sub` matches in at most one way from any start, and never the empty text. */
  ghost predicate OneWay(sub: Hir, h: seq<byte>) {
    forall x: nat :: x <= |h| ==> |Ends(sub, h, x)| <= 1 && Within(Ends(sub, h, x), x + 1, |h|)
  }

  /** Longest first for a greedy loop, shortest first for a lazy one. */
  ghost predicate Ordered(es: seq<nat>, greedy: bool) {
    forall j, k :: 0 <= j < k < |es| ==> if greedy then es[j] > es[k] else es[j] < es[k]
  }

  lemma OneIteration(sub: Hir, greedy: bool, h: seq<byte>, i: nat, e: nat)
    requires i < e <= |h| && Ends(sub, h, i) == [e]
    ensures var rest := PlusEnds(sub, greedy, h, e);
      PlusEnds(sub, greedy, h, i) == if greedy then rest + [e] else [e] + rest
  {
    hide Ends;
    var ends := [e];
    assert ends[1..] == [] && PlusAfter(sub, greedy, h, i, []) == [];
    var once := PlusOnce(sub, greedy, h, i, e);
    assert PlusAfter(sub, greedy, h, i, ends) == once + [];
    assert once + [] == once;
  }

  lemma NoIteration(sub: Hir, greedy: bool, h: seq<byte>, i: nat)
    requires i <= |h| && Ends(sub, h, i) == []
    ensures PlusEnds(sub, greedy, h, i) == []
  {
  }

  lemma OneMoreEnd(es: seq<nat>, greedy: bool, e: nat, hi: nat)
    requires Ordered(es, greedy) && Within(es, e + 1, hi) && e <= hi
    ensures var all := if greedy then es + [e] else [e] + es;
      Ordered(all, greedy) && Within(all, e, hi)
  {
  }

  lemma {:induction false} PlusOrder(sub: Hir, greedy: bool, h: seq<byte>, i: nat)
    requires i <= |h| && OneWay(sub, h)
    ensures Ordered(PlusEnds(sub, greedy, h, i), greedy) && Within(PlusEnds(sub, greedy, h, i), i + 1, |h|)
    decreases |h| - i
  {
    hide Ends, PlusAfter;
    var ends := Ends(sub, h, i);
    if ends != [] {
      PlusOrder(sub, greedy, h, ends[0]);
      OneIteration(sub, greedy, h, i, ends[0]);
      OneMoreEnd(PlusEnds(sub, greedy, h, ends[0]), greedy, ends[0], |h|);
    } else {
      NoIteration(sub, greedy, h, i);
    }
  }

  lemma {:induction false} OptionsOrder(sub: Hir, greedy: bool, k: nat, h: seq<byte>, i: nat)
    requires i <= |h| && OneWay(sub, h)
    ensures Ordered(Options(sub, greedy, k, h, i), greedy)
    decreases k
  {
    hide Ends;
    if k > 0 {
      var ends := Ends(sub, h, i);
      if ends != [] {
        OptionsOrder(sub, greedy, k - 1, h, ends[0]);
        assert OptionsFrom(sub, greedy, k - 1, h, i, ends[1..]) == [];
      }
    }
  }

  lemma {:induction false} TimesOnce(sub: Hir, k: nat, h: seq<byte>, lo: nat, starts: seq<nat>)
    requires Within(starts, lo, |h|) && |starts| <= 1 && OneWay(sub, h)
    ensures |Times(sub, k, h, lo, starts)| <= 1
    decreases k
  {
    hide Ends;
    if k > 0 {
      if starts != [] {
        assert EndsFrom(sub, h, lo, starts[1..]) == [];
        assert EndsFrom(sub, h, lo, starts) == Ends(sub, h, starts[0]) + [];
      }
      TimesOnce(sub, k - 1, h, lo, EndsFrom(sub, h, lo, starts));
    }
  }

  /** A greedy loop prefers more iterations and a lazy one fewer; with `EndsAreMatches` this
    * settles the list of such a loop's ends. */
  lemma LoopOrder(sub: Hir, min: nat, max: Option<nat>, greedy: bool, h: seq<byte>, i: nat)
    requires i <= |h| && OneWay(sub, h)
    ensures Ordered(Ends(Repetition(sub, min, max, greedy), h, i), greedy)
  {
    hide PlusEnds, Options, Times;
    if max.None? && min == 0 {
      PlusOrder(sub, greedy, h, i);
    } else if max.None? {
      TimesOnce(sub, min - 1, h, i, [i]);
      var starts := Times(sub, min - 1, h, i, [i]);
      if starts != [] {
        PlusOrder(sub, greedy, h, starts[0]);
        assert PlusFrom(sub, greedy, h, i, starts[1..]) == [];
      }
    } else if min <= max.value {
      TimesOnce(sub, min, h, i, [i]);
      var starts := Times(sub, min, h, i, [i]);
      if starts != [] {
        OptionsOrder(sub, greedy, max.value - min, h, starts[0]);
        assert OptionsFrom(sub, greedy, max.value - min, h, i, starts[1..]) == [];
      }
    }
  }

  /** A byte class is the plainest such part. */
  lemma ByteClassOneWay(ranges: seq<Range>, h: seq<byte>)
    ensures OneWay(ByteClass(ranges), h)
  {
  }
}
