/** Trimming, ASCII case and byte lengths of text. */
module Text {
  import Utf8

  /** Unicode's White_Space. */
  predicate White(c: char) {
    var n := c as int;
    || 9 <= n <= 13 || n == 32 || n == 0x85 || n == 0xA0 || n == 0x1680 || 0x2000 <= n <= 0x200A
    || n == 0x2028 || n == 0x2029 || n == 0x202F || n == 0x205F || n == 0x3000
  }

  function TrimStart(s: string): string { if s != [] && White(s[0]) then TrimStart(s[1..]) else s }
  function TrimEnd(s: string): string { if s != [] && White(s[|s| - 1]) then TrimEnd(s[..|s| - 1]) else s }
  function Trim(s: string): string { TrimEnd(TrimStart(s)) }
  predicate Blank(s: string) { Trim(s) == "" }

  function LowerChar(c: char): char { if 'A' <= c <= 'Z' then (c as int + 32) as char else c }
  function Lower(s: string): string { seq(|s|, i requires 0 <= i < |s| => LowerChar(s[i])) }

  lemma {:induction false} TrimEndFacts(s: string)
    ensures var t := TrimEnd(s); t == [] || !White(t[|t| - 1])
    ensures s != [] && !White(s[0]) ==> TrimEnd(s) != [] && TrimEnd(s)[0] == s[0]
    decreases |s|
  {
    if s != [] && White(s[|s| - 1]) { TrimEndFacts(s[..|s| - 1]); }
  }

  lemma {:induction false} TrimStartFacts(s: string)
    ensures var t := TrimStart(s); t == [] || !White(t[0])
    decreases |s|
  {
    if s != [] && White(s[0]) { TrimStartFacts(s[1..]); }
  }

  lemma TrimTwice(s: string)
    ensures Trim(Trim(s)) == Trim(s)
  {
    TrimStartFacts(s);
    TrimEndFacts(TrimStart(s));
  }

  /** The bytes a text takes as UTF-8. */
  function ByteLen(s: string): nat {
    if s == [] then 0 else ByteLen(s[..|s| - 1]) + Utf8.Utf8Len(s[|s| - 1] as int)
  }
}
