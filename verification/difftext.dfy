/** The text of a diff's header lines, as Git prints it and as the parser reads it.
  *
  * A name is plain or quoted, with a tab after it where it holds a space. `octal` is Git's
  * core.quotePath: whether bytes from 0x80 on are quoted too, in octal, or printed raw. A hunk
  * header gives two ranges, each a start and a length that is left out when it is one, and may
  * be followed by a heading.
  */
module DiffText {
  import opened Base
  import Utf8
  import opened Decimal

  const TAB: byte := 0x09
  const QUOTE: byte := 0x22
  const BACKSLASH: byte := 0x5C
  const COMMA: byte := 0x2C
  const MINUS: byte := 0x2D
  const PLUS: byte := 0x2B
  const U32_MAX: nat := 0xFFFF_FFFF

  const DEV_NULL: seq<byte> := [0x2F, 0x64, 0x65, 0x76, 0x2F, 0x6E, 0x75, 0x6C, 0x6C]  // "/dev/null"
  const A_SIDE: seq<byte> := [0x61, 0x2F]  // "a/"
  const B_SIDE: seq<byte> := [0x62, 0x2F]  // "b/"
  const SPACE_B: seq<byte> := [0x20, 0x62, 0x2F]  // " b/"

  type Name = seq<byte>

  function StripPrefix(s: seq<byte>, p: seq<byte>): (r: Option<seq<byte>>)
    ensures r.Some? ==> s == p + r.value
  {
    if |p| <= |s| && s[..|p|] == p then Some(s[|p|..]) else None
  }

  lemma Strips(p: seq<byte>, s: seq<byte>)
    ensures StripPrefix(p + s, p) == Some(s)
  {
  }

  /** The index of the first `b`; the length when there is none. */
  function FirstOf(s: seq<byte>, b: byte): (i: nat)
    ensures i <= |s| && (i < |s| ==> s[i] == b) && forall k :: 0 <= k < i ==> s[k] != b
  {
    if s == [] || s[0] == b then 0 else 1 + FirstOf(s[1..], b)
  }

  lemma FirstOfSplit(a: seq<byte>, b: byte, c: seq<byte>)
    requires b !in a
    ensures FirstOf(a + [b] + c, b) == |a| && FirstOf(a, b) == |a|
    ensures (a + [b] + c)[..|a|] == a && (a + [b] + c)[|a| + 1..] == c
  {
    var s := a + [b] + c;
    assert forall k :: 0 <= k < |a| ==> a[k] in a;
    assert forall k :: 0 <= k < |a| ==> s[k] == a[k];
    assert s[|a|] == b;
  }

  // ---- C-quoted names ---------------------------------------------------------------------

  /** The byte a one-letter escape stands for. */
  function Simple(e: byte): Option<byte> {
    if e == 0x61 then Some(7) else if e == 0x62 then Some(8) else if e == 0x74 then Some(9)
    else if e == 0x6E then Some(10) else if e == 0x76 then Some(11) else if e == 0x66 then Some(12)
    else if e == 0x72 then Some(13) else if e == QUOTE then Some(QUOTE)
    else if e == BACKSLASH then Some(BACKSLASH) else None
  }

  predicate Octal(b: byte) { 0x30 <= b <= 0x37 }

  /** Three octal characters as a byte; a plus may stand first. */
  function OctalByte(s: seq<byte>): Option<byte>
    requires |s| == 3
  {
    if !(Octal(s[0]) || s[0] == PLUS) || !Octal(s[1]) || !Octal(s[2]) then None
    else
      var t: seq<int> := s;
      var v := (if t[0] == PLUS then 0 else t[0] - 0x30) * 64 + (t[1] - 0x30) * 8 + (t[2] - 0x30);
      if v < 256 then Some(v) else None
  }

  datatype Quoted = Quoted(name: Name, used: nat)
  datatype Unescaped = Unescaped(value: byte, used: nat)

  /** The first byte of an escaped name and what it takes. */
  function Unescape(b: seq<byte>): (r: Option<Unescaped>)
    requires b != []
    ensures r.Some? ==> 1 <= r.value.used <= |b|
  {
    if b[0] != BACKSLASH then Some(Unescaped(b[0], 1))
    else if |b| < 2 then None
    else if Simple(b[1]).Some? then Some(Unescaped(Simple(b[1]).value, 2))
    else if |b| < 4 || OctalByte(b[1..4]).None? then None
    else Some(Unescaped(OctalByte(b[1..4]).value, 4))
  }

  /** The bytes up to the closing quote, unescaped, and how many were read. */
  function UnquoteTail(b: seq<byte>): Option<Quoted>
    decreases |b|
  {
    if b == [] then None
    else if b[0] == QUOTE then Some(Quoted([], 1))
    else
      var first := Unescape(b);
      if first.None? then None
      else
        var more := UnquoteTail(b[first.value.used..]);
        if more.None? then None
        else Some(Quoted([first.value.value] + more.value.name, first.value.used + more.value.used))
  }

  /** Decode a C-quoted name; None when it is not well formed or not UTF-8. */
  function Unquote(raw: seq<byte>): Option<Quoted> {
    if raw == [] || raw[0] != QUOTE then None
    else
      var q := UnquoteTail(raw[1..]);
      if q.None? || !Utf8.Valid(q.value.name) then None else Some(Quoted(q.value.name, 1 + q.value.used))
  }

  predicate Plain(b: byte, octal: bool) {
    0x20 <= b && b != 0x7F && b != QUOTE && b != BACKSLASH && (octal ==> b < 0x80)
  }

  predicate PlainName(s: Name, octal: bool) { forall k :: 0 <= k < |s| ==> Plain(s[k], octal) }

  function Escape(b: byte, octal: bool): (r: seq<byte>)
    ensures r != []
  {
    if Plain(b, octal) then [b]
    else if b == 7 then [BACKSLASH, 0x61] else if b == 8 then [BACKSLASH, 0x62]
    else if b == 9 then [BACKSLASH, 0x74] else if b == 10 then [BACKSLASH, 0x6E]
    else if b == 11 then [BACKSLASH, 0x76] else if b == 12 then [BACKSLASH, 0x66]
    else if b == 13 then [BACKSLASH, 0x72] else if b == QUOTE then [BACKSLASH, QUOTE]
    else if b == BACKSLASH then [BACKSLASH, BACKSLASH]
    else [BACKSLASH, 0x30 + b / 64, 0x30 + b / 8 % 8, 0x30 + b % 8]
  }

  /** A name escaped, its closing quote, and what follows. */
  function QuotedTail(s: Name, octal: bool, rest: seq<byte>): (r: seq<byte>)
    ensures |r| > |rest|
  {
    if s == [] then [QUOTE] + rest else Escape(s[0], octal) + QuotedTail(s[1..], octal, rest)
  }

  function Quote(s: Name, octal: bool): seq<byte> { [QUOTE] + QuotedTail(s, octal, []) }

  lemma {:induction false} QuotedThen(s: Name, octal: bool, rest: seq<byte>)
    ensures QuotedTail(s, octal, []) + rest == QuotedTail(s, octal, rest)
    decreases |s|
  {
    if s != [] { QuotedThen(s[1..], octal, rest); }
  }

  lemma EscapedOctal(b: byte, rest: seq<byte>)
    ensures Unescape([BACKSLASH, 0x30 + b / 64, 0x30 + b / 8 % 8, 0x30 + b % 8] + rest) == Some(Unescaped(b, 4))
  {
    var e: seq<byte> := [BACKSLASH, 0x30 + b / 64, 0x30 + b / 8 % 8, 0x30 + b % 8];
    var s := e + rest;
    assert s[1..4] == [e[1], e[2], e[3]];
    assert b == (b / 64) * 64 + (b / 8 % 8) * 8 + b % 8;
    assert Simple(e[1]).None?;
  }

  lemma EscapeReads(b: byte, octal: bool, rest: seq<byte>)
    ensures Escape(b, octal)[0] != QUOTE
    ensures Unescape(Escape(b, octal) + rest) == Some(Unescaped(b, |Escape(b, octal)|))
    ensures (Escape(b, octal) + rest)[|Escape(b, octal)|..] == rest
  {
    if !Plain(b, octal) && |Escape(b, octal)| == 4 {
      EscapedOctal(b, rest);
    }
  }

  lemma {:induction false} QuoteReads(s: Name, octal: bool, rest: seq<byte>)
    ensures UnquoteTail(QuotedTail(s, octal, rest)) == Some(Quoted(s, |QuotedTail(s, octal, rest)| - |rest|))
    decreases |s|
  {
    hide Escape, Unescape;
    if s == [] {
      assert UnquoteTail([QUOTE] + rest) == Some(Quoted([], 1));
    } else {
      QuoteReads(s[1..], octal, rest);
      EscapeReads(s[0], octal, QuotedTail(s[1..], octal, rest));
      assert s == [s[0]] + s[1..];
    }
  }

  lemma {:induction false} QuotedEnds(s: Name, octal: bool)
    ensures var t := QuotedTail(s, octal, []); t != [] && t[|t| - 1] == QUOTE
    decreases |s|
  {
    if s != [] { QuotedEnds(s[1..], octal); }
  }

  /** Unquoting inverts quoting, whatever follows, under either setting: it gives the name back
    * exactly when the name is UTF-8. */
  lemma UnquoteOfQuote(s: Name, octal: bool, rest: seq<byte>)
    ensures Unquote(Quote(s, octal) + rest) == if Utf8.Valid(s) then Some(Quoted(s, |Quote(s, octal)|)) else None
    ensures var q := Quote(s, octal); q != [] && q[0] == QUOTE && q[|q| - 1] == QUOTE
  {
    hide QuotedTail, UnquoteTail;
    QuoteReads(s, octal, rest);
    QuotedThen(s, octal, rest);
    assert (Quote(s, octal) + rest)[1..] == QuotedTail(s, octal, rest);
    QuotedEnds(s, octal);
  }

  // ---- names in header lines -----------------------------------------------------------------

  /** A name with its side's prefix, quoted when it has to be. */
  function Label(side: seq<byte>, name: Name, octal: bool): seq<byte> {
    if PlainName(name, octal) then side + name else Quote(side + name, octal)
  }

  /** What follows the mark of a `---` or `+++` line; a name with a space ends in a tab. */
  function SideText(side: seq<byte>, name: Option<Name>, octal: bool): seq<byte> {
    if name.None? then DEV_NULL
    else Label(side, name.value, octal) + if SPACE in name.value then [TAB] else []
  }

  function SidePath(raw: seq<byte>, side: seq<byte>): Option<Name> {
    var text := if raw != [] && raw[|raw| - 1] == TAB then raw[..|raw| - 1] else raw;
    if text == DEV_NULL then None
    else if text != [] && text[0] == QUOTE then
      var q := Unquote(text);
      if q.None? then None else StripPrefix(q.value.name, side)
    else StripPrefix(text, side)
  }

  /** The path of a `diff --git` line, from what follows the mark: quoted, or the first half. */
  function HeaderPath(rest: seq<byte>): Option<Name> {
    if rest != [] && rest[0] == QUOTE then
      var q := Unquote(rest);
      if q.None? then None else StripPrefix(q.value.name, A_SIDE)
    else
      var body := StripPrefix(rest, A_SIDE);
      if body.None? || |body.value| < 3 then None
      else
        var n := (|body.value| - 3) / 2;
        var tail := StripPrefix(body.value[n..], SPACE_B);
        if tail == Some(body.value[..n]) then tail else None
  }

  function HeaderText(name: Name, octal: bool): seq<byte> {
    Label(A_SIDE, name, octal) + [SPACE] + Label(B_SIDE, name, octal)
  }

  /** A text that is not `/dev/null`, with or without a tab after it. */
  lemma TabStripped(text: seq<byte>, tab: bool)
    requires text != [] && text[|text| - 1] != TAB
    ensures var raw := text + if tab then [TAB] else [];
      (if raw != [] && raw[|raw| - 1] == TAB then raw[..|raw| - 1] else raw) == text
  {
    assert (text + [TAB])[..|text|] == text;
  }

  lemma PlainLast(side: seq<byte>, name: Name)
    requires (side == A_SIDE || side == B_SIDE) && PlainName(name, false)
    ensures var text := side + name;
      text[|text| - 1] != TAB && text[0] != QUOTE && text != DEV_NULL && StripPrefix(text, side) == Some(name)
  {
    var text := side + name;
    Strips(side, name);
    assert text[0] == side[0] && DEV_NULL[0] == 0x2F;
    if name != [] { assert text[|text| - 1] == name[|name| - 1]; }
  }

  /** What is shown is read whether a tab ends it or not. */
  lemma SideReads(shown: seq<byte>, side: seq<byte>, name: Option<Name>, tab: bool)
    requires shown != [] && shown[|shown| - 1] != TAB && shown != DEV_NULL
    requires name ==
      if shown[0] != QUOTE then StripPrefix(shown, side)
      else if Unquote(shown).None? then None else StripPrefix(Unquote(shown).value.name, side)
    ensures SidePath(shown + if tab then [TAB] else [], side) == name
  {
    hide Unquote, StripPrefix;
    TabStripped(shown, tab);
  }

  /** A side line gives its name. A quoted name that is not UTF-8 gives none; a raw one is never
    * read, the line not being UTF-8 either. */
  lemma SideName(side: seq<byte>, name: Name, octal: bool)
    requires side == A_SIDE || side == B_SIDE
    requires octal || Utf8.Valid(name)
    ensures SidePath(SideText(side, Some(name), octal), side) == if Utf8.Valid(name) then Some(name) else None
  {
    hide Unquote, Quote, StripPrefix, SidePath, Utf8.Valid;
    if PlainName(name, octal) {
      PlainWhenOctal(name, octal);
      PlainLast(side, name);
    } else {
      Utf8.ValidAfterAsciis(side, name);
      UnquoteOfQuote(side + name, octal, []);
      assert Quote(side + name, octal) + [] == Quote(side + name, octal);
      Strips(side, name);
      assert DEV_NULL[0] == 0x2F;
    }
    SideReads(Label(side, name, octal), side, if Utf8.Valid(name) then Some(name) else None, SPACE in name);
  }

  /** A plain name is plain raw, and in octal it is ASCII. */
  lemma PlainWhenOctal(name: Name, octal: bool)
    requires PlainName(name, octal)
    ensures PlainName(name, false) && (octal ==> Utf8.Valid(name))
  {
    hide Utf8.Valid;
    if octal { Utf8.AsciiValid(name); }
  }

  lemma SideNone(side: seq<byte>, octal: bool)
    ensures SidePath(SideText(side, None, octal), side) == None
  {
  }

  lemma PlainHeader(name: Name)
    ensures HeaderPath(A_SIDE + name + [SPACE] + (B_SIDE + name)) == Some(name)
  {
    hide StripPrefix;
    var rest, body := A_SIDE + name + [SPACE] + (B_SIDE + name), name + SPACE_B + name;
    assert rest == A_SIDE + body;
    Strips(A_SIDE, body);
    assert body[..|name|] == name && body[|name|..] == SPACE_B + name;
    Strips(SPACE_B, name);
  }

  lemma QuotedHeader(name: Name, octal: bool, tail: seq<byte>)
    ensures HeaderPath(Quote(A_SIDE + name, octal) + tail) == if Utf8.Valid(name) then Some(name) else None
  {
    hide Utf8.Valid, Quote;
    Utf8.ValidAfterAsciis(A_SIDE, name);
    UnquoteOfQuote(A_SIDE + name, octal, tail);
    Strips(A_SIDE, name);
    assert (Quote(A_SIDE + name, octal) + tail)[0] == QUOTE;
  }

  /** The header line gives the name both sides share, when it is UTF-8. */
  lemma HeaderName(name: Name, octal: bool)
    requires octal || Utf8.Valid(name)
    ensures HeaderPath(HeaderText(name, octal)) == if Utf8.Valid(name) then Some(name) else None
  {
    hide Utf8.Valid, Quote, HeaderPath;
    if PlainName(name, octal) {
      PlainWhenOctal(name, octal);
      PlainHeader(name);
    } else {
      var tail := [SPACE] + Label(B_SIDE, name, octal);
      QuotedHeader(name, octal, tail);
      assert HeaderText(name, octal) == Quote(A_SIDE + name, octal) + tail;
    }
  }

  // ---- hunk ranges -------------------------------------------------------------------------------

  datatype Hunk = Hunk(oldStart: nat, oldLen: nat, newStart: nat, newLen: nat)

  predicate HunkOk(h: Hunk) {
    h.oldStart <= U32_MAX && h.oldLen <= U32_MAX && h.newStart <= U32_MAX && h.newLen <= U32_MAX
  }

  function RangeText(start: nat, len: nat): seq<byte> {
    if len == 1 then Dec(start) else Dec(start) + [COMMA] + Dec(len)
  }

  function ParseRange(s: seq<byte>): Option<(nat, nat)> {
    var i := FirstOf(s, COMMA);
    if i == |s| then
      var a := ParseDec(s, U32_MAX);
      if a.None? then None else Some((a.value, 1))
    else
      var a, n := ParseDec(s[..i], U32_MAX), ParseDec(s[i + 1..], U32_MAX);
      if a.None? || n.None? then None else Some((a.value, n.value))
  }

  lemma PairReads(x: seq<byte>, y: seq<byte>)
    requires COMMA !in x
    ensures ParseRange(x + [COMMA] + y) ==
      var a, n := ParseDec(x, U32_MAX), ParseDec(y, U32_MAX);
      if a.None? || n.None? then None else Some((a.value, n.value))
    ensures ParseRange(x) == var a := ParseDec(x, U32_MAX); if a.None? then None else Some((a.value, 1))
  {
    FirstOfSplit(x, COMMA, y);
  }

  lemma RangeReads(start: nat, len: nat)
    requires start <= U32_MAX && len <= U32_MAX
    ensures ParseRange(RangeText(start, len)) == Some((start, len))
    ensures SPACE !in RangeText(start, len)
  {
    hide Dec, Value, ParseDec, ParseRange;
    DecParses(start, U32_MAX);
    DecParses(len, U32_MAX);
    var x, y := Dec(start), Dec(len);
    assert forall k :: 0 <= k < |x| ==> Digit(x[k]);
    assert forall k :: 0 <= k < |y| ==> Digit(y[k]);
    PairReads(x, y);
  }

  /** The text before the first " @@". */
  function BeforeMark(s: seq<byte>): (r: seq<byte>)
    ensures |r| <= |s|
  {
    if s == [] || (|s| >= 3 && s[0] == SPACE && s[1] == 0x40 && s[2] == 0x40) then []
    else [s[0]] + BeforeMark(s[1..])
  }

  lemma {:induction false} BeforeMarkIs(a: seq<byte>, rest: seq<byte>)
    requires forall k :: 0 <= k < |a| && a[k] == SPACE ==> k + 1 < |a| && a[k + 1] != 0x40
    ensures BeforeMark(a + [SPACE, 0x40, 0x40] + rest) == a
    decreases |a|
  {
    var s := a + [SPACE, 0x40, 0x40] + rest;
    if a != [] {
      assert s[1..] == a[1..] + [SPACE, 0x40, 0x40] + rest;
      BeforeMarkIs(a[1..], rest);
      assert s[0] == a[0] && (|a| > 1 ==> s[1] == a[1]);
    }
  }

  /** The two ranges of a hunk header. */
  function ParseSpec(spec: seq<byte>): Option<Hunk> {
    var i := FirstOf(spec, SPACE);
    if i == |spec| then None
    else
      var old', tail := spec[..i], spec[i + 1..];
      var new' := tail[..FirstOf(tail, SPACE)];
      if old' == [] || old'[0] != MINUS || new' == [] || new'[0] != PLUS then None
      else
        var a, b := ParseRange(old'[1..]), ParseRange(new'[1..]);
        if a.None? || b.None? then None else Some(Hunk(a.value.0, a.value.1, b.value.0, b.value.1))
  }

  /** A hunk header, from what follows "@@ ". */
  function ParseHunk(rest: seq<byte>): Option<Hunk> { ParseSpec(BeforeMark(rest)) }

  function Spec(a: seq<byte>, b: seq<byte>): seq<byte> { [MINUS] + a + [SPACE] + ([PLUS] + b) }

  /** A hunk header as Git prints it after "@@ ", with the heading it may add. */
  function HunkText(h: Hunk, heading: seq<byte>): seq<byte> {
    Spec(RangeText(h.oldStart, h.oldLen), RangeText(h.newStart, h.newLen)) + [SPACE, 0x40, 0x40] +
    if heading == [] then [] else [SPACE] + heading
  }

  lemma HunkReads(h: Hunk, heading: seq<byte>)
    requires HunkOk(h)
    ensures ParseHunk(HunkText(h, heading)) == Some(h)
  {
    RangeReads(h.oldStart, h.oldLen);
    RangeReads(h.newStart, h.newLen);
    var a, b := RangeText(h.oldStart, h.oldLen), RangeText(h.newStart, h.newLen);
    SpecEnds(a, b, if heading == [] then [] else [SPACE] + heading);
    SpecReads(a, b, h);
  }

  lemma SpecReads(a: seq<byte>, b: seq<byte>, h: Hunk)
    requires SPACE !in a && SPACE !in b
    requires ParseRange(a) == Some((h.oldStart, h.oldLen)) && ParseRange(b) == Some((h.newStart, h.newLen))
    ensures ParseSpec(Spec(a, b)) == Some(h)
  {
    var old', new' := [MINUS] + a, [PLUS] + b;
    FirstOfSplit(old', SPACE, new');
    FirstOfSplit(new', SPACE, []);
    assert new'[..|new'|] == new';
    assert old'[1..] == a && new'[1..] == b;
  }

  lemma SpecEnds(a: seq<byte>, b: seq<byte>, rest: seq<byte>)
    requires SPACE !in a && SPACE !in b
    ensures BeforeMark(Spec(a, b) + [SPACE, 0x40, 0x40] + rest) == Spec(a, b)
  {
    var spec, n := Spec(a, b), |a| + 1;
    assert spec[n] == SPACE && spec[n + 1] == PLUS;
    assert forall k :: 0 < k < n ==> spec[k] == a[k - 1] && a[k - 1] in a;
    assert forall k :: n + 1 < k < |spec| ==> spec[k] == b[k - n - 2] && b[k - n - 2] in b;
    BeforeMarkIs(spec, rest);
  }
}
