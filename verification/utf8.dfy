/** UTF-8 as section 3 of RFC 3629 defines it. */
module Utf8 {
  import opened Base

  predicate Continuation(b: int) { 0x80 <= b < 0xC0 }

  /** The code point `w` encodes, when it encodes one. */
  function CodePoint(w: seq<byte>): Option<nat> {
    var v: seq<int> := w;
    if |v| == 1 && v[0] < 0x80 then Some(v[0])
    else if |v| == 2 && 0xC2 <= v[0] < 0xE0 && Continuation(v[1]) then
      Some((v[0] - 0xC0) * 64 + (v[1] - 0x80))
    else if |v| == 3 && 0xE0 <= v[0] < 0xF0 && Continuation(v[1]) && Continuation(v[2]) then
      var c := (v[0] - 0xE0) * 4096 + (v[1] - 0x80) * 64 + (v[2] - 0x80);
      if 0x800 <= c && !(0xD800 <= c < 0xE000) then Some(c) else None
    else if |v| == 4 && 0xF0 <= v[0] < 0xF5 && Continuation(v[1]) && Continuation(v[2]) && Continuation(v[3]) then
      var c := (v[0] - 0xF0) * 262144 + (v[1] - 0x80) * 4096 + (v[2] - 0x80) * 64 + (v[3] - 0x80);
      if 0x10000 <= c < 0x110000 then Some(c) else None
    else None
  }

  /** The bytes a code point takes. */
  function Utf8Len(c: nat): (n: nat)
    ensures 1 <= n <= 4
  {
    if c < 0x80 then 1 else if c < 0x800 then 2 else if c < 0x10000 then 3 else 4
  }

  /** A code point text can hold: not a surrogate. */
  predicate Scalar(c: nat) { c < 0xD800 || 0xE000 <= c < 0x110000 }

  /** Every scalar value has an encoding. */
  lemma Encode(c: nat) returns (w: seq<byte>)
    requires Scalar(c)
    ensures CodePoint(w) == Some(c)
  {
    if c < 0x80 {
      w := [c];
    } else if c < 0x800 {
      w := [0xC0 + c / 64, 0x80 + c % 64];
    } else if c < 0x10000 {
      w := [0xE0 + c / 4096, 0x80 + c / 64 % 64, 0x80 + c % 64];
      assert c == c / 64 * 64 + c % 64 && c / 64 == c / 4096 * 64 + c / 64 % 64;
    } else {
      w := [0xF0 + c / 262144, 0x80 + c / 4096 % 64, 0x80 + c / 64 % 64, 0x80 + c % 64];
      assert c == c / 64 * 64 + c % 64 && c / 64 == c / 4096 * 64 + c / 64 % 64;
      assert c / 4096 == c / 262144 * 64 + c / 4096 % 64;
    }
  }

  /** A code point's encoding has the length `Utf8Len` says, and holds an LF only when it
    * is that one byte. */
  lemma EncodingShape(w: seq<byte>)
    requires CodePoint(w).Some?
    ensures |w| == Utf8Len(CodePoint(w).value)
    ensures LF in w <==> CodePoint(w).value == 10
    ensures CodePoint(w).value == 10 ==> w == [LF]
  {
    var v: seq<int> := w;
    assert forall k :: 0 <= k < |v| ==> w[k] == v[k];
  }

  /** `String::from_utf8` accepts `s`: it is a run of encoded code points. */
  predicate Valid(s: seq<byte>) {
    || s == []
    || (|s| >= 1 && CodePoint(s[..1]).Some? && Valid(s[1..]))
    || (|s| >= 2 && CodePoint(s[..2]).Some? && Valid(s[2..]))
    || (|s| >= 3 && CodePoint(s[..3]).Some? && Valid(s[3..]))
    || (|s| >= 4 && CodePoint(s[..4]).Some? && Valid(s[4..]))
  }

  /** An ASCII byte before a string decides nothing about it. */
  lemma ValidAfterAscii(a: byte, s: seq<byte>)
    requires a < 0x80
    ensures Valid([a] + s) <==> Valid(s)
  {
    var t := [a] + s;
    assert t[..1] == [a] && t[1..] == s;
    assert CodePoint([a]).Some?;
    assert |t| >= 2 ==> t[..2][0] == a;
    assert |t| >= 3 ==> t[..3][0] == a;
    assert |t| >= 4 ==> t[..4][0] == a;
  }

  predicate Ascii(s: seq<byte>) { forall k :: 0 <= k < |s| ==> s[k] < 0x80 }

  lemma {:induction false} ValidAfterAsciis(a: seq<byte>, s: seq<byte>)
    requires Ascii(a)
    ensures Valid(a + s) <==> Valid(s)
    decreases |a|
  {
    if a == [] {
      assert a + s == s;
    } else {
      assert a + s == [a[0]] + (a[1..] + s);
      ValidAfterAscii(a[0], a[1..] + s);
      ValidAfterAsciis(a[1..], s);
    }
  }

  /** The first encoded code point of a non-empty valid string. */
  function FirstLen(s: seq<byte>): (k: nat)
    requires Valid(s) && s != []
    ensures 1 <= k <= 4 && k <= |s| && CodePoint(s[..k]).Some? && Valid(s[k..])
  {
    if CodePoint(s[..1]).Some? && Valid(s[1..]) then 1
    else if |s| >= 2 && CodePoint(s[..2]).Some? && Valid(s[2..]) then 2
    else if |s| >= 3 && CodePoint(s[..3]).Some? && Valid(s[3..]) then 3
    else 4
  }

  lemma ValidCons(s: seq<byte>, k: nat)
    requires 1 <= k <= 4 && k <= |s| && CodePoint(s[..k]).Some? && Valid(s[k..])
    ensures Valid(s)
  {
  }

  lemma ValidBefore(a: seq<byte>, b: seq<byte>, k: nat)
    requires 1 <= k <= 4 && k <= |a| && CodePoint(a[..k]).Some? && Valid(a[k..] + b)
    ensures Valid(a + b)
  {
    assert (a + b)[..k] == a[..k] && (a + b)[k..] == a[k..] + b;
    ValidCons(a + b, k);
  }

  lemma {:induction false} ValidConcat(a: seq<byte>, b: seq<byte>)
    requires Valid(a) && Valid(b)
    ensures Valid(a + b)
    decreases |a|
  {
    if a == [] {
      assert a + b == b;
    } else {
      var k := FirstLen(a);
      ValidConcat(a[k..], b);
      ValidBefore(a, b, k);
    }
  }

  lemma AsciiValid(s: seq<byte>)
    requires Ascii(s)
    ensures Valid(s)
  {
    ValidAfterAsciis(s, []);
    assert s + [] == s;
  }

  /** An ASCII byte belongs to no longer code point. */
  lemma PointHasNoAscii(w: seq<byte>, j: nat)
    requires CodePoint(w).Some? && |w| >= 2 && j < |w|
    ensures w[j] >= 0x80
  {
    var v: seq<int> := w;
    assert forall k :: 0 <= k < |v| ==> w[k] == v[k];
  }

  /** What comes before an ASCII byte of a valid string is valid. */
  lemma {:induction false} ValidUpTo(a: seq<byte>, c: byte, b: seq<byte>)
    requires c < 0x80 && Valid(a + [c] + b)
    ensures Valid(a)
    decreases |a|
  {
    hide CodePoint;
    if a != [] {
      var s := a + [c] + b;
      var k := FirstLen(s);
      if k > |a| {
        assert s[..k][|a|] == c;
        PointHasNoAscii(s[..k], |a|);
      } else {
        assert s[..k] == a[..k] && s[k..] == a[k..] + [c] + b;
        ValidUpTo(a[k..], c, b);
        ValidCons(a, k);
      }
    }
  }
}
