/** Splitting a byte stream into capped lines, however it is cut into chunks. */
module Lines {
  import opened Base

  /** The index of the first LF; the length when there is none. */
  function FirstLf(s: seq<byte>): (i: nat)
    ensures i <= |s| && (i < |s| ==> s[i] == LF) && forall k :: 0 <= k < i ==> s[k] != LF
  {
    if s == [] || s[0] == LF then 0 else 1 + FirstLf(s[1..])
  }

  lemma FirstLfIs(s: seq<byte>, i: nat)
    requires i <= |s| && (i < |s| ==> s[i] == LF) && forall k :: 0 <= k < i ==> s[k] != LF
    ensures FirstLf(s) == i
  {
  }

  /** The complete lines of a stream, LF excluded, and what follows the last one. */
  function Complete(s: seq<byte>): seq<seq<byte>>
    decreases |s|
  {
    var i := FirstLf(s);
    if i == |s| then [] else [s[..i]] + Complete(s[i + 1..])
  }
  function Rest(s: seq<byte>): (r: seq<byte>)
    ensures LF !in r
    decreases |s|
  {
    var i := FirstLf(s);
    if i == |s| then s else Rest(s[i + 1..])
  }

  /** A stream whose first LF is in its first part: the line it ends, then the rest. */
  lemma FirstLine(a: seq<byte>, b: seq<byte>)
    requires FirstLf(a) < |a|
    ensures var i := FirstLf(a);
      Complete(a + b) == [a[..i]] + Complete(a[i + 1..] + b) && Rest(a + b) == Rest(a[i + 1..] + b)
  {
    var i := FirstLf(a);
    FirstLfIs(a + b, i);
    assert (a + b)[..i] == a[..i] && (a + b)[i + 1..] == a[i + 1..] + b;
  }

  /** The first line of a stream, if it has one, and the rest. */
  lemma Unfold(s: seq<byte>)
    ensures FirstLf(s) == |s| ==> Complete(s) == [] && Rest(s) == s
    ensures FirstLf(s) < |s| ==> Complete(s) == [s[..FirstLf(s)]] + Complete(s[FirstLf(s) + 1..])
    ensures FirstLf(s) < |s| ==> Rest(s) == Rest(s[FirstLf(s) + 1..])
  {
    hide FirstLf;
    if FirstLf(s) < |s| {
      hide Complete, Rest;
      UnfoldComplete(s, FirstLf(s), s[FirstLf(s) + 1..]);
      UnfoldRest(s, FirstLf(s), s[FirstLf(s) + 1..]);
    }
  }

  lemma UnfoldComplete(s: seq<byte>, i: nat, t: seq<byte>)
    requires i == FirstLf(s) < |s| && t == s[i + 1..]
    ensures Complete(s) == [s[..i]] + Complete(t)
  {
    hide FirstLf, Rest;
  }

  lemma UnfoldRest(s: seq<byte>, i: nat, t: seq<byte>)
    requires i == FirstLf(s) < |s| && t == s[i + 1..]
    ensures Rest(s) == Rest(t)
  {
    hide FirstLf, Complete;
  }

  lemma {:induction false} RestOfTwo(a: seq<byte>, b: seq<byte>)
    ensures Rest(a + b) == Rest(Rest(a) + b)
    decreases |a|
  {
    hide FirstLf, Complete, Rest;
    Unfold(a);
    if FirstLf(a) < |a| {
      FirstLine(a, b);
      RestOfTwo(a[FirstLf(a) + 1..], b);
    }
  }

  lemma {:induction false} CompleteOfTwo(a: seq<byte>, b: seq<byte>)
    ensures Complete(a + b) == Complete(a) + Complete(Rest(a) + b)
    decreases |a|
  {
    hide FirstLf, Complete, Rest;
    var i, mid := FirstLf(a), Complete(Rest(a) + b);
    Unfold(a);
    if i < |a| {
      FirstLine(a, b);
      CompleteOfTwo(a[i + 1..], b);
      assert [a[..i]] + (Complete(a[i + 1..]) + mid) == [a[..i]] + Complete(a[i + 1..]) + mid;
    } else {
      assert [] + mid == mid;
    }
  }

  /** Lines are found alike whether a stream comes whole or in two parts. */
  lemma TwoParts(a: seq<byte>, b: seq<byte>)
    ensures Complete(a + b) == Complete(a) + Complete(Rest(a) + b)
    ensures Rest(a + b) == Rest(Rest(a) + b)
  {
    CompleteOfTwo(a, b);
    RestOfTwo(a, b);
  }

  lemma OneLine(line: seq<byte>, more: seq<byte>)
    requires LF !in line
    ensures Complete(line + [LF] + more) == [line] + Complete(more)
    ensures Rest(line + [LF] + more) == Rest(more)
    ensures Complete(line) == [] && Rest(line) == line
  {
    var s := line + [LF] + more;
    FirstLfIs(s, |line|);
    FirstLfIs(line, |line|);
    assert s[..|line|] == line && s[|line| + 1..] == more;
  }

  function Capped(cap: nat, s: seq<byte>): seq<byte> { if |s| <= cap then s else s[..cap] }

  function CappedAll(cap: nat, lines: seq<seq<byte>>): (r: seq<seq<byte>>)
    ensures |r| == |lines|
  {
    seq(|lines|, k requires 0 <= k < |lines| => Capped(cap, lines[k]))
  }

  /** Everything a splitter hands over for a whole stream: its complete lines, then an
    * unfinished last one. */
  function Delivered(cap: nat, stream: seq<byte>): seq<seq<byte>> {
    var last := Capped(cap, Rest(stream));
    CappedAll(cap, Complete(stream)) + if last == [] then [] else [last]
  }

  lemma Rejoined(fed: seq<byte>, left: seq<byte>, i: nat)
    requires i < |left| && left[i] == LF
    ensures fed + left[..i] + [LF] + left[i + 1..] == fed + left
  {
  }

  class Splitter {
    const cap: nat
    var buf: seq<byte>
    var overlong: bool
    var lines: seq<seq<byte>>
    ghost var fed: seq<byte>

    ghost predicate Valid()
      reads this
    {
      && buf == Capped(cap, Rest(fed))
      && overlong == (|Rest(fed)| > cap)
      && lines == CappedAll(cap, Complete(fed))
    }

    constructor (cap: nat)
      ensures Valid() && this.cap == cap && fed == [] && lines == []
    {
      this.cap := cap;
      buf, overlong, lines, fed := [], false, [], [];
    }

    /** Append what fits of `part`, which holds no LF. */
    method Take(part: seq<byte>)
      requires Valid() && LF !in part
      modifies this`buf, this`overlong, this`fed
      ensures Valid() && fed == old(fed) + part
    {
      hide Complete, Rest, CappedAll;
      var room := if cap >= |buf| then cap - |buf| else 0;
      TwoParts(fed, part);
      NoLineEnds(fed, part);
      buf := buf + part[..Min(|part|, room)];
      overlong := overlong || |part| > room;
      fed := fed + part;
    }

    /** Deliver the pending line. */
    method EndLine()
      requires Valid()
      modifies this
      ensures Valid() && fed == old(fed) + [LF]
    {
      hide Complete, Rest, CappedAll;
      LineEnds(fed);
      CappedSnoc(cap, Complete(fed), Rest(fed));
      lines := lines + [buf];
      buf, overlong := [], false;
      fed := fed + [LF];
    }

    method Feed(chunk: seq<byte>)
      requires Valid()
      modifies this
      ensures Valid() && fed == old(fed) + chunk
    {
      var left := chunk;
      while FirstLf(left) < |left|
        invariant Valid() && fed + left == old(fed) + chunk
        decreases |left|
      {
        var i := FirstLf(left);
        Rejoined(fed, left, i);
        Take(left[..i]);
        EndLine();
        left := left[i + 1..];
      }
      Take(left);
    }

    /** Deliver a last line without an LF. */
    method Finish() returns (all: seq<seq<byte>>)
      requires Valid()
      ensures all == Delivered(cap, fed)
    {
      all := if buf == [] then lines else lines + [buf];
    }
  }

  /** Bytes without an LF only grow the pending line. */
  lemma NoLineEnds(fed: seq<byte>, part: seq<byte>)
    requires LF !in Rest(fed) && LF !in part
    ensures Complete(fed + part) == Complete(fed) && Rest(fed + part) == Rest(fed) + part
  {
    TwoParts(fed, part);
    OneLine(Rest(fed) + part, []);
    assert Complete(fed) + [] == Complete(fed);
  }

  lemma CappedSnoc(cap: nat, lines: seq<seq<byte>>, line: seq<byte>)
    ensures CappedAll(cap, lines + [line]) == CappedAll(cap, lines) + [Capped(cap, line)]
  {
  }

  /** An LF completes the pending line. */
  lemma LineEnds(fed: seq<byte>)
    ensures Complete(fed + [LF]) == Complete(fed) + [Rest(fed)]
    ensures Rest(fed + [LF]) == []
  {
    TwoParts(fed, [LF]);
    OneLine(Rest(fed), []);
    assert Rest(fed) + [LF] + [] == Rest(fed) + [LF];
    assert FirstLf([]) == 0;
  }

  function Joined(chunks: seq<seq<byte>>): seq<byte> {
    if chunks == [] then [] else Joined(chunks[..|chunks| - 1]) + chunks[|chunks| - 1]
  }

  /** However a stream is cut, its lines come out the same. */
  method SplitAll(cap: nat, chunks: seq<seq<byte>>) returns (all: seq<seq<byte>>)
    ensures all == Delivered(cap, Joined(chunks))
  {
    var s := new Splitter(cap);
    for k := 0 to |chunks|
      invariant s.Valid() && s.cap == cap && s.fed == Joined(chunks[..k])
      invariant fresh(s)
    {
      s.Feed(chunks[k]);
      assert chunks[..k + 1][..k] == chunks[..k];
    }
    assert chunks[..|chunks|] == chunks;
    all := s.Finish();
  }

  /** Lines written one after another, each ended by an LF. */
  function Written(lines: seq<seq<byte>>): seq<byte> {
    if lines == [] then [] else lines[0] + [LF] + Written(lines[1..])
  }

  /** What was written comes back, capped. */
  lemma {:induction false} WrittenIsDelivered(cap: nat, lines: seq<seq<byte>>)
    requires forall k :: 0 <= k < |lines| ==> LF !in lines[k]
    ensures Complete(Written(lines)) == lines && Rest(Written(lines)) == []
    ensures Delivered(cap, Written(lines)) == CappedAll(cap, lines)
    decreases |lines|
  {
    if lines == [] {
      assert FirstLf([]) == 0;
    } else {
      WrittenIsDelivered(cap, lines[1..]);
      OneLine(lines[0], Written(lines[1..]));
      assert lines == [lines[0]] + lines[1..];
    }
  }
}
