/** The hook's string literals against section 7 of RFC 8259. */
module JsonRfc {
  import opened Base
  import opened JsonHook
  import opened JsonRoundTrip

  // `Denotes` is the grammar's own reading of a literal and calls neither the writer nor the
  // reader: any JSON reader gives what it says. The writer's literals denote what was written,
  // and the program's reader agrees with it on every literal but those it names here.

  const LOWER: string := "0123456789abcdef"
  const UPPER: string := "0123456789ABCDEF"

  /** The two-character escapes: the character after the backslash, and the code point. */
  const ESCAPES: set<(int, int)> := {
    (0x22, 0x22), (0x5C, 0x5C), (0x2F, 0x2F), (0x62, 0x08), (0x66, 0x0C), (0x6E, 0x0A), (0x72, 0x0D), (0x74, 0x09)}

  /** A character that may stand for itself. */
  predicate Plain(c: char) {
    0x20 <= c as int <= 0x21 || 0x23 <= c as int <= 0x5B || 0x5D <= c as int
  }

  predicate Digit(c: char, d: nat) { d < 16 && (c == LOWER[d] || c == UPPER[d]) }

  /** A backslash, a `u` and the four hexadecimal digits of `v`. */
  ghost predicate Unit(p: string, v: nat) {
    && |p| == 6 && p[0] == '\\' && p[1] == 'u'
    && exists a: nat, b: nat, c: nat, d: nat :: Digit(p[2], a) && Digit(p[3], b) && Digit(p[4], c) && Digit(p[5], d) &&
         v == ((a * 16 + b) * 16 + c) * 16 + d
  }

  /** Two units, a surrogate pair. */
  ghost predicate Pair(p: string, v: nat) {
    && |p| == 12
    && exists hi: nat, lo: nat :: Unit(p[..6], hi) && Unit(p[6..], lo) &&
         0xD800 <= hi < 0xDC00 <= lo < 0xE000 && v == 0x10000 + (hi - 0xD800) * 0x400 + (lo - 0xDC00)
  }

  /** A character for itself, or a backslash and a letter of the table. */
  predicate Short(p: string, c: char) {
    (p == [c] && Plain(c)) || (|p| == 2 && p[0] == '\\' && (p[1] as int, c as int) in ESCAPES)
  }

  /** One character of the grammar and the code point it stands for. */
  ghost predicate Piece(p: string, c: char) {
    || Short(p, c)
    || Unit(p, c as int)
    || Pair(p, c as int)
  }

  ghost predicate Denotes(lit: string, s: string)
    decreases |s|
  {
    if s == [] then lit == []
    else exists n: nat :: n <= |lit| && Piece(lit[..n], s[0]) && Denotes(lit[n..], s[1..])
  }

  // ---- the writer ------------------------------------------------------------------------

  lemma HexDigits(n: nat)
    requires n < 0x10000
    ensures Unit("\\u" + Hex4(n), n)
  {
    var p := "\\u" + Hex4(n);
    FourDigits(n);
    assert Digit(p[2], n / 4096) && Digit(p[3], n / 256 % 16) && Digit(p[4], n / 16 % 16) && Digit(p[5], n % 16);
  }

  lemma EscapeIsPiece(c: char)
    ensures Piece(Escape(c), c)
  {
    if c as int < 0x20 || c as int == 0x2028 || c as int == 0x2029 {
      HexDigits(c as int);
    }
  }

  /** What is written denotes what was to be written, to any reader of the grammar. */
  lemma {:induction false} WrittenDenotes(s: string)
    ensures Denotes(EscapeAll(s), s)
    decreases |s|
  {
    hide Escape, Piece;
    if s != [] {
      EscapeIsPiece(s[0]);
      WrittenDenotes(s[1..]);
      var lit, n := EscapeAll(s), |Escape(s[0])|;
      assert lit[..n] == Escape(s[0]) && lit[n..] == EscapeAll(s[1..]);
    }
  }

  // ---- the reader ------------------------------------------------------------------------

  /** No raw control character or quote, and no sign after `\u`: what the reader takes and the
    * grammar does not. */
  predicate Clean(lit: string) {
    if lit == [] then true
    else if lit[0] != '\\' then Plain(lit[0]) && Clean(lit[1..])
    else |lit| >= 2 && !(lit[1] == 'u' && |lit| >= 3 && lit[2] == '+') && Clean(lit[2..])
  }

  /** No `\u` escape of a surrogate: what the grammar takes and the reader does not. */
  predicate NoSurrogate(lit: string) {
    if lit == [] then true
    else if lit[0] != '\\' then NoSurrogate(lit[1..])
    else if |lit| < 2 then true
    else !(lit[1] == 'u' && |lit| >= 4 && lit[2] in "dD" && lit[3] in "89abcdefABCDEF") && NoSurrogate(lit[2..])
  }

  lemma DigitIsHexValue(c: char, d: nat)
    ensures Digit(c, d) <==> HexValue(c) == Some(d)
  {
    if d < 16 {
      assert LOWER[d] as int == if d < 10 then 0x30 + d else 0x57 + d;
      assert UPPER[d] as int == if d < 10 then 0x30 + d else 0x37 + d;
    }
  }

  /** The reader's four digits are the grammar's. */
  lemma UnitIsParsed(p: string, v: nat)
    requires |p| == 6 && p[0] == '\\' && p[1] == 'u' && p[2] != '+'
    ensures Unit(p, v) <==> ParseHex(p[2..6]) == Some(v)
  {
    hide HexValue, Digit;
    forall c: char, d: nat ensures Digit(c, d) <==> HexValue(c) == Some(d) { DigitIsHexValue(c, d); }
    var q := p[2..6];
    assert q[0] == p[2] && q[1] == p[3] && q[2] == p[4] && q[3] == p[5];
    if ParseHex(q) == Some(v) {
      var a, b, c, d := HexValue(p[2]).value, HexValue(p[3]).value, HexValue(p[4]).value, HexValue(p[5]).value;
      assert Digit(p[2], a) && Digit(p[3], b) && Digit(p[4], c) && Digit(p[5], d);
    }
  }

  lemma PlainStep(lit: string, k: nat)
    requires k < |lit| && lit[k] != '\\'
    ensures Clean(lit[k..]) ==> Clean(lit[k + 1..])
    ensures NoSurrogate(lit[k..]) <==> NoSurrogate(lit[k + 1..])
  {
    assert lit[k..][1..] == lit[k + 1..];
  }

  /** The digits of a unit are ordinary characters. */
  lemma UnitSkips(lit: string)
    requires |lit| >= 6 && lit[0] == '\\' && lit[1] == 'u'
    requires forall k :: 2 <= k < 6 ==> lit[k] != '\\'
    ensures Clean(lit) ==> Clean(lit[6..])
    ensures NoSurrogate(lit) <==>
      !(lit[2] in "dD" && lit[3] in "89abcdefABCDEF") && NoSurrogate(lit[6..])
  {
    PlainStep(lit, 2);
    PlainStep(lit, 3);
    PlainStep(lit, 4);
    PlainStep(lit, 5);
  }

  lemma HighDigits(a: nat, b: nat, c: nat, d: nat)
    requires a < 16 && b < 16 && c < 16 && d < 16
    ensures var v := ((a * 16 + b) * 16 + c) * 16 + d;
      v < 0x10000 && (0xD800 <= v < 0xE000 <==> a == 13 && b >= 8)
  {
  }

  lemma DigitSplits(c: char, d: nat)
    requires Digit(c, d)
    ensures d < 16 && (d == 13 <==> c in "dD") && (d >= 8 <==> c in "89abcdefABCDEF") && c != '+' && c != '\\'
  {
    DigitIsHexValue(c, d);
  }

  /** A surrogate's first two digits are those `NoSurrogate` looks for. */
  lemma SurrogateDigits(p: string, v: nat)
    requires Unit(p, v)
    ensures 0xD800 <= v < 0xE000 <==> p[2] in "dD" && p[3] in "89abcdefABCDEF"
    ensures v < 0x10000 && p[2] != '+' && forall k :: 2 <= k < 6 ==> p[k] != '\\'
  {
    hide Digit;
    var a: nat, b: nat, c: nat, d: nat :| Digit(p[2], a) && Digit(p[3], b) && Digit(p[4], c) && Digit(p[5], d) &&
      v == ((a * 16 + b) * 16 + c) * 16 + d;
    DigitSplits(p[2], a);
    DigitSplits(p[3], b);
    DigitSplits(p[4], c);
    DigitSplits(p[5], d);
    HighDigits(a, b, c, d);
  }

  /** One step of the reader on a clean literal is one piece of the grammar, and no surrogate. */
  lemma StepIsPiece(lit: string)
    requires lit != [] && Clean(lit) && DecodeOne(lit).Some?
    ensures var one := DecodeOne(lit).value;
      && Piece(lit[..one.used], one.c) && Clean(lit[one.used..])
      && (NoSurrogate(lit) <==> NoSurrogate(lit[one.used..]))
  {
    var one := DecodeOne(lit).value;
    if one.used == 6 {
      var p := lit[..6];
      assert p[2..6] == lit[2..6];
      UnitIsParsed(p, one.c as int);
      SurrogateDigits(p, one.c as int);
      assert forall k :: 0 <= k < 6 ==> p[k] == lit[k];
      UnitSkips(lit);
    } else if one.used == 1 {
      assert lit[..1] == [one.c];
    }
  }

  /** And a piece that is no surrogate is one step of the reader. */
  lemma PieceIsStep(lit: string, n: nat, c: char)
    requires n <= |lit| && Clean(lit) && NoSurrogate(lit) && Piece(lit[..n], c)
    ensures n > 0 && DecodeOne(lit) == Some(Decoded(c, n))
  {
    hide DecodeOne, Clean, NoSurrogate, Unit, Pair, Short;
    var p := lit[..n];
    if Pair(p, c as int) {
      PairIsLong(p, c as int);
      PairIsSurrogate(lit, c as int);
    } else if Unit(p, c as int) {
      UnitIsLong(p, c as int);
      UnitIsStep(lit, c);
    } else {
      ShortIsStep(lit, n, c);
    }
  }

  lemma PairIsLong(p: string, v: nat) requires Pair(p, v) ensures |p| == 12 {}
  lemma UnitIsLong(p: string, v: nat) requires Unit(p, v) ensures |p| == 6 {}

  lemma ShortIsStep(lit: string, n: nat, c: char)
    requires n <= |lit| && Short(lit[..n], c)
    ensures n > 0 && DecodeOne(lit) == Some(Decoded(c, n))
  {
    var p := lit[..n];
    if |p| == 1 {
      assert p[0] == lit[0] == c;
    } else {
      assert p[0] == lit[0] && p[1] == lit[1];
      EscapesAre(p[1] as int, c as int);
    }
  }

  lemma EscapesAre(x: int, v: int)
    requires (x, v) in ESCAPES
    ensures v == if x == 0x62 then 0x08 else if x == 0x66 then 0x0C else if x == 0x6E then 0x0A
      else if x == 0x72 then 0x0D else if x == 0x74 then 0x09 else x
    ensures x in {0x22, 0x5C, 0x2F, 0x62, 0x66, 0x6E, 0x72, 0x74}
  {
  }

  lemma PairIsSurrogate(lit: string, v: nat)
    requires |lit| >= 12 && Pair(lit[..12], v)
    ensures !NoSurrogate(lit)
  {
    hide NoSurrogate;
    var p := lit[..12];
    var hi: nat :| Unit(p[..6], hi) && 0xD800 <= hi < 0xDC00;
    SurrogateDigits(p[..6], hi);
    assert forall k :: 0 <= k < 6 ==> p[..6][k] == lit[k];
    hide Unit;
    UnitSkips(lit);
  }

  lemma UnitIsStep(lit: string, c: char)
    requires |lit| >= 6 && Unit(lit[..6], c as int)
    ensures DecodeOne(lit) == Some(Decoded(c, 6))
  {
    var p := lit[..6];
    SurrogateDigits(p, c as int);
    UnitIsParsed(p, c as int);
    assert p[2..6] == lit[2..6] && p[0] == lit[0] && p[1] == lit[1];
    hide Unit, ParseHex;
  }

  /** The reader's decoding is exactly the grammar's reading, but that it refuses escaped
    * surrogates. */
  lemma {:induction false} UnescapeExactly(lit: string, s: string)
    requires Clean(lit)
    ensures Unescaped(lit) == Some(s) <==> Denotes(lit, s) && NoSurrogate(lit)
    decreases |lit|
  {
    hide DecodeOne, Piece, Clean, NoSurrogate;
    if lit == [] {
      EmptyLiteral(s);
    } else {
      if Unescaped(lit) == Some(s) {
        var one := DecodeOne(lit).value;
        StepIsPiece(lit);
        UnescapeExactly(lit[one.used..], s[1..]);
      }
      if Denotes(lit, s) && NoSurrogate(lit) {
        var n: nat :| n <= |lit| && Piece(lit[..n], s[0]) && Denotes(lit[n..], s[1..]);
        PieceIsStep(lit, n, s[0]);
        StepIsPiece(lit);
        UnescapeExactly(lit[n..], s[1..]);
        assert s == [s[0]] + s[1..];
      }
    }
  }

  lemma EmptyLiteral(s: string)
    ensures NoSurrogate([]) && (Denotes([], s) <==> s == [])
  {
  }

  /** Every escaped surrogate pair is such a literal: the grammar reads it and the reader does
    * not. */
  lemma PairIsRefused(lit: string, c: char)
    requires Pair(lit, c as int)
    ensures Denotes(lit, [c]) && Unescaped(lit).None?
  {
    hide Unit, ParseHex, HexValue;
    var hi: nat :| Unit(lit[..6], hi) && 0xD800 <= hi < 0xDC00;
    UnitIsLong(lit[..6], hi);
    UnitHead(lit[..6], hi);
    assert lit[..6][2..6] == lit[2..6];
    assert lit[..12] == lit && lit[12..] == [] && [c][1..] == [];
    assert Piece(lit[..12], [c][0]) && Denotes(lit[12..], [c][1..]);
  }

  lemma UnitHead(p: string, v: nat)
    requires Unit(p, v)
    ensures |p| == 6 && p[0] == '\\' && p[1] == 'u' && ParseHex(p[2..6]) == Some(v)
  {
    SurrogateDigits(p, v);
    UnitIsParsed(p, v);
  }

  // ---- a whole answer ----------------------------------------------------------------------

  // Objects whose values are strings, as section 4 lays them out.

  ghost predicate IsString(text: string, s: string) {
    exists lit :: text == "\"" + lit + "\"" && Denotes(lit, s)
  }

  ghost predicate IsMember(text: string, m: (string, string)) {
    exists name, value :: text == name + ":" + value && IsString(name, m.0) && IsString(value, m.1)
  }

  ghost predicate AreMembers(text: string, ms: seq<(string, string)>)
    requires ms != []
    decreases |ms|
  {
    if |ms| == 1 then IsMember(text, ms[0])
    else exists first, rest :: text == first + ("," + rest) && IsMember(first, ms[0]) && AreMembers(rest, ms[1..])
  }

  ghost predicate IsObject(text: string, ms: seq<(string, string)>) {
    exists inside :: text == "{" + inside + "}" && if ms == [] then inside == "" else AreMembers(inside, ms)
  }

  function Pairs(ms: seq<Member>): seq<(string, string)>
    requires forall k :: 0 <= k < |ms| ==> ms[k].value.Str?
  {
    seq(|ms|, k requires 0 <= k < |ms| => (ms[k].key, ms[k].value.text))
  }

  lemma QuotedDenotes(s: string)
    ensures IsString(Quoted(s), s)
  {
    WrittenDenotes(s);
  }

  lemma MemberDenotes(m: Member)
    requires m.value.Str?
    ensures IsMember(MemberText(m), (m.key, m.value.text))
  {
    hide IsString;
    QuotedDenotes(m.key);
    QuotedDenotes(m.value.text);
  }

  lemma {:induction false} SeparatedDenotes(ms: seq<Member>)
    requires ms != [] && forall k :: 0 <= k < |ms| ==> ms[k].value.Str?
    ensures AreMembers(Separated(ms), Pairs(ms))
    decreases |ms|
  {
    hide IsMember, MemberText;
    MemberDenotes(ms[0]);
    FrontSeparated(ms[0], ms[1..]);
    assert ms == [ms[0]] + ms[1..];
    if |ms| > 1 {
      SeparatedDenotes(ms[1..]);
      assert Pairs(ms)[1..] == Pairs(ms[1..]) && Pairs(ms)[0] == (ms[0].key, ms[0].value.text);
      assert Separated(ms) == MemberText(ms[0]) + ("," + Separated(ms[1..]));
    } else {
      assert MemberText(ms[0]) + "" == MemberText(ms[0]);
    }
  }

  function Field(key: string, value: Option<string>): seq<(string, string)> {
    if value.Some? then [(key, value.value)] else []
  }

  /** The text sent to Cursor is the object of the answer's fields, to any JSON reader. */
  lemma AnswerDenotes(a: Answer)
    requires !Empty(a)
    ensures IsObject(Rendered(a), Field("additional_context", a.context) + Field("updated_mcp_tool_output", a.output)
      + Field("updated_input", a.input))
  {
    hide Separated, AreMembers;
    var ms := Members(a);
    SeparatedDenotes(ms);
    assert Pairs(ms) == Field(CONTEXT, a.context) + Field(OUTPUT, a.output) + Field(INPUT, a.input);
  }
}
