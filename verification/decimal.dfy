/** Decimal numbers as `to_string` writes them and `parse` reads them. */
module Decimal {
  import opened Base

  const SPACE: byte := 0x20

  predicate Digit(b: byte) { 0x30 <= b <= 0x39 }
  predicate Digits(s: seq<byte>) { forall k :: 0 <= k < |s| ==> Digit(s[k]) }

  function Dec(n: nat): (s: seq<byte>)
    ensures s != [] && Digits(s)
  {
    if n < 10 then [0x30 + n] else Dec(n / 10) + [0x30 + n % 10]
  }

  function Value(s: seq<byte>): nat
    requires Digits(s)
  {
    if s == [] then 0 else Value(s[..|s| - 1]) * 10 + (s[|s| - 1] - 0x30)
  }

  /** An unsigned `parse`: an optional plus, then digits, within `max`. */
  function ParseDec(s: seq<byte>, max: nat): Option<nat> {
    var d := if s != [] && s[0] == 0x2B then s[1..] else s;
    if d == [] || !Digits(d) || Value(d) > max then None else Some(Value(d))
  }

  lemma {:induction false} ValueOfDec(n: nat)
    ensures Value(Dec(n)) == n
  {
    if n >= 10 {
      ValueOfDec(n / 10);
      assert Dec(n)[..|Dec(n)| - 1] == Dec(n / 10);
    } else {
      assert Value([0x30 + n]) == Value([]) * 10 + n;
    }
  }

  lemma DecParses(n: nat, max: nat)
    requires n <= max
    ensures ParseDec(Dec(n), max) == Some(n)
  {
    ValueOfDec(n);
    assert Digit(Dec(n)[0]);
  }
}
