/** Length-prefixed fields, the framing of every hashed key. */
module Framing {
  import opened Base
  import CacheCodec

  type Bytes = seq<byte>

  /** A field: its length as eight little-endian bytes, then its bytes. */
  function Field(b: Bytes): Bytes { CacheCodec.Le(|b|, 8) + b }

  /** A slice's length, which is what a field's prefix can hold. */
  predicate Fits(b: Bytes) { |b| <= ISIZE_MAX }

  lemma LeInjective(x: nat, y: nat)
    requires x <= USIZE_MAX && y <= USIZE_MAX && CacheCodec.Le(x, 8) == CacheCodec.Le(y, 8)
    ensures x == y
  {
    hide CacheCodec.Le;
    CacheCodec.Widths();
    CacheCodec.UnLeOfLe(x, 8);
    CacheCodec.UnLeOfLe(y, 8);
  }

  /** Equal-length fronts of equal sequences are equal, and so is what follows. */
  lemma SplitEqual(a: Bytes, b: Bytes, x: Bytes, y: Bytes)
    requires |a| == |b| && a + x == b + y
    ensures a == b && x == y
  {
    assert (a + x)[..|a|] == a && (b + y)[..|b|] == b;
    assert (a + x)[|a|..] == x && (b + y)[|b|..] == y;
  }

  /** A field can be taken off the front of any stream in one way only. */
  lemma FieldInjective(a: Bytes, b: Bytes, x: Bytes, y: Bytes)
    requires Fits(a) && Fits(b) && Field(a) + x == Field(b) + y
    ensures a == b && x == y
  {
    hide CacheCodec.Le;
    var la, lb := CacheCodec.Le(|a|, 8), CacheCodec.Le(|b|, 8);
    assert Field(a) + x == la + (a + x) && Field(b) + y == lb + (b + y);
    SplitEqual(la, lb, a + x, b + y);
    LeInjective(|a|, |b|);
    SplitEqual(a, b, x, y);
  }

  /** A list of fields, one after another. */
  function Framed(bs: seq<Bytes>): Bytes {
    if bs == [] then [] else Framed(bs[..|bs| - 1]) + Field(bs[|bs| - 1])
  }

  lemma FramedSnoc(bs: seq<Bytes>, b: Bytes)
    ensures Framed(bs + [b]) == Framed(bs) + Field(b)
  {
    assert (bs + [b])[..|bs|] == bs;
  }

  lemma {:induction false} FramedCons(b: Bytes, bs: seq<Bytes>)
    ensures Framed([b] + bs) == Field(b) + Framed(bs)
    decreases |bs|
  {
    hide Field;
    if bs == [] {
      assert [b] + bs == [] + [b];
      FramedSnoc([], b);
    } else {
      var init, last := bs[..|bs| - 1], bs[|bs| - 1];
      FramedCons(b, init);
      assert [b] + bs == ([b] + init) + [last] && bs == init + [last];
      FramedSnoc([b] + init, last);
      FramedSnoc(init, last);
    }
  }

  lemma {:induction false} FramedInjective(a: seq<Bytes>, b: seq<Bytes>)
    requires (forall k :: 0 <= k < |a| ==> Fits(a[k])) && (forall k :: 0 <= k < |b| ==> Fits(b[k]))
    requires Framed(a) == Framed(b)
    ensures a == b
    decreases |a|
  {
    hide Framed;
    if a != [] { assert a == [a[0]] + a[1..]; FramedCons(a[0], a[1..]); }
    if b != [] { assert b == [b[0]] + b[1..]; FramedCons(b[0], b[1..]); }
    NoneFramed();
    if a != [] && b != [] {
      FieldInjective(a[0], b[0], Framed(a[1..]), Framed(b[1..]));
      FramedInjective(a[1..], b[1..]);
    }
  }

  lemma NoneFramed() ensures Framed([]) == [] {}
}
