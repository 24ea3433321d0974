/** The hand-written JSON writer and reader of the hook client (section 7 of RFC 8259).
  *
  * Text is a sequence of characters; the delimiters the scanner looks for are ASCII, so its
  * offsets count characters here where the program counts bytes.
  */
module JsonHook {
  import opened Base

  // ---- writing -------------------------------------------------------------------------------

  const HEX: string := "0123456789abcdef"

  function Hex4(n: nat): (s: string)
    requires n < 0x10000
    ensures |s| == 4
  {
    [HEX[n / 4096], HEX[n / 256 % 16], HEX[n / 16 % 16], HEX[n % 16]]
  }

  function Escape(c: char): (s: string)
    ensures s != []
  {
    if c == '\"' then "\\\""
    else if c == '\\' then "\\\\"
    else if c == '\n' then "\\n"
    else if c == '\r' then "\\r"
    else if c == '\t' then "\\t"
    else if c as int < 0x20 || c as int == 0x2028 || c as int == 0x2029 then "\\u" + Hex4(c as int)
    else [c]
  }

  function EscapeAll(s: string): string {
    if s == [] then [] else Escape(s[0]) + EscapeAll(s[1..])
  }

  function Quoted(s: string): string { "\"" + EscapeAll(s) + "\"" }

  /** Write a string literal, a character at a time. */
  method JsonString(s: string) returns (out: string)
    ensures out == Quoted(s)
  {
    hide Escape;
    out := "\"";
    for k := 0 to |s|
      invariant out + EscapeAll(s[k..]) == "\"" + EscapeAll(s)
    {
      assert s[k..][0] == s[k] && s[k..][1..] == s[k + 1..];
      assert out + EscapeAll(s[k..]) == (out + Escape(s[k])) + EscapeAll(s[k + 1..]);
      out := out + Escape(s[k]);
    }
    assert s[|s|..] == [] && out + [] == out;
    out := out + "\"";
  }

  datatype Answer = Answer(context: Option<string>, output: Option<string>, input: Option<string>)

  const CONTEXT: string := "additional_context"
  const OUTPUT: string := "updated_mcp_tool_output"
  const INPUT: string := "updated_input"

  predicate Empty(a: Answer) { a.context.None? && a.output.None? && a.input.None? }

  /** A JSON value as written: a string, a bare token (number, true, false, null), a list, an
    * object. */
  datatype Json = Str(text: string) | Token(token: string) | List(items: seq<Json>) | Object(members: seq<Member>)
  datatype Member = Member(key: string, value: Json)

  /** A value's text, without space. */
  function Text(v: Json): string
    decreases v
  {
    match v
    case Str(s) => Quoted(s)
    case Token(t) => t
    case List(items) => "[" + ItemsText(items) + "]"
    case Object(members) => "{" + Separated(members) + "}"
  }

  function ItemsText(items: seq<Json>): string
    decreases items
  {
    if items == [] then "" else Text(items[0]) + if |items| == 1 then "" else "," + ItemsText(items[1..])
  }

  function MemberText(m: Member): string
    decreases m
  {
    Quoted(m.key) + ":" + Text(m.value)
  }

  /** Members separated by commas. */
  function Separated(ms: seq<Member>): string
    decreases ms
  {
    if ms == [] then "" else (if |ms| == 1 then "" else Separated(ms[..|ms| - 1]) + ",") + MemberText(ms[|ms| - 1])
  }

  function One(key: string, value: Option<string>): seq<Member> {
    if value.Some? then [Member(key, Str(value.value))] else []
  }

  function Members(a: Answer): seq<Member> {
    One(CONTEXT, a.context) + One(OUTPUT, a.output) + One(INPUT, a.input)
  }

  function Rendered(a: Answer): string { "{" + Separated(Members(a)) + "}" }

  lemma SeparatedSnoc(ms: seq<Member>, m: Member)
    ensures Separated(ms + [m]) == (if ms == [] then "" else Separated(ms) + ",") + MemberText(m)
  {
    hide MemberText;
    assert (ms + [m])[..|ms|] == ms;
  }

  /** Append one member, with a comma unless it is the first. */
  method PushMember(out: string, first: bool, key: string, value: Option<string>, ghost done: seq<Member>)
    returns (out': string, first': bool)
    requires out == "{" + Separated(done) && first == (done == [])
    ensures out' == "{" + Separated(done + One(key, value)) && first' == (done + One(key, value) == [])
  {
    hide Separated;
    if value.None? {
      assert done + [] == done;
      return out, first;
    }
    SeparatedSnoc(done, Member(key, Str(value.value)));
    var k := JsonString(key);
    var v := JsonString(value.value);
    out' := (if first then out else out + ",") + (k + ":" + v);
    first' := false;
    NoneSeparated();
    Regroup("{", Separated(done), ",", MemberText(Member(key, Str(value.value))));
  }

  lemma NoneSeparated() ensures Separated([]) == "" {}

  lemma Regroup(a: string, b: string, c: string, d: string)
    ensures a + b + c + d == a + (b + c + d) && a + "" + d == a + ("" + d)
  {
  }

  method Render(a: Answer) returns (r: Option<string>)
    ensures r == if Empty(a) then None else Some(Rendered(a))
  {
    hide Separated, One;
    if Empty(a) { return None; }
    var out, first := "{", true;
    NoneSeparated();
    ghost var done: seq<Member> := [];
    out, first := PushMember(out, first, CONTEXT, a.context, done);
    done := done + One(CONTEXT, a.context);
    assert done == One(CONTEXT, a.context);
    out, first := PushMember(out, first, OUTPUT, a.output, done);
    done := done + One(OUTPUT, a.output);
    out, first := PushMember(out, first, INPUT, a.input, done);
    r := Some(out + "}");
  }

  // ---- reading -------------------------------------------------------------------------------------

  function Add(n: nat, r: Option<nat>): Option<nat> { if r.None? then None else Some(n + r.value) }

  /** The offset of a string's closing quote, escapes honoured. */
  function StringEnd(s: string): (r: Option<nat>)
    ensures r.Some? ==> r.value < |s| && s[r.value] == '\"'
    decreases |s|
  {
    if s == [] then None
    else if s[0] == '\"' then Some(0)
    else
      var n := if s[0] == '\\' then 2 else 1;
      if |s| < n then None
      else
        var rest := StringEnd(s[n..]);
        if rest.None? then None else Some(n + rest.value)
  }

  predicate Space(c: char) { c == ' ' || c == '\t' || c == '\n' || c == '\r' }

  function SkipSpace(s: string): (r: string)
    ensures |r| <= |s|
  {
    if s != [] && Space(s[0]) then SkipSpace(s[1..]) else s
  }

  function Deeper(c: char, depth: nat): nat {
    if c == '{' || c == '[' then depth + 1 else if (c == '}' || c == ']') && depth > 0 then depth - 1 else depth
  }

  /** The length of an object or array, strings inside it passed over. */
  function NestedEnd(s: string, depth: nat): (r: Option<nat>)
    ensures r.Some? ==> r.value <= |s|
    decreases |s|
  {
    if s == [] then None
    else if s[0] == '\"' then
      var e := StringEnd(s[1..]);
      if e.None? then None
      else
        var rest := NestedEnd(s[e.value + 2..], depth);
        if rest.None? then None else Some(e.value + 2 + rest.value)
    else if (s[0] == '}' || s[0] == ']') && depth <= 1 then Some(1)
    else
      var rest := NestedEnd(s[1..], Deeper(s[0], depth));
      if rest.None? then None else Some(1 + rest.value)
  }

  /** The length of a bare token: up to the next comma or brace. */
  function TokenEnd(s: string): (r: nat)
    ensures r <= |s|
  {
    if s == [] || s[0] == ',' || s[0] == '}' then 0 else 1 + TokenEnd(s[1..])
  }

  function ValueEnd(s: string): (r: Option<nat>)
    ensures r.Some? ==> r.value <= |s|
  {
    if s == [] then None
    else if s[0] == '\"' then
      var e := StringEnd(s[1..]);
      if e.None? then None else Some(e.value + 2)
    else if s[0] == '{' || s[0] == '[' then NestedEnd(s, 0)
    else Some(TokenEnd(s))
  }

  datatype Found = Found(name: string, value: string, rest: string)

  /** The member at the front of an object's inside: its raw name, its value text, and what
    * follows. */
  function FirstMember(s: string): (r: Option<Found>)
    ensures r.Some? ==> |r.value.rest| < |s|
  {
    var t := SkipSpace(s);
    if t == [] || t[0] != '\"' || StringEnd(t[1..]).None? then None
    else
      var e := StringEnd(t[1..]).value;
      var u := SkipSpace(t[e + 2..]);
      if u == [] || u[0] != ':' then None
      else
        var v := SkipSpace(u[1..]);
        var n := ValueEnd(v);
        if n.None? then None else Some(Found(t[1..e + 1], v[..n.value], v[n.value..]))
  }

  function FindMember(s: string, key: string): Option<string>
    decreases |s|
  {
    var m := FirstMember(s);
    if m.None? then None
    else if m.value.name == key then Some(m.value.value)
    else
      var w := SkipSpace(m.value.rest);
      if w == [] || w[0] != ',' then None else FindMember(w[1..], key)
  }

  function AfterBrace(s: string): string {
    if s == [] then [] else if s[0] == '{' then s[1..] else AfterBrace(s[1..])
  }

  function HexValue(c: char): Option<nat> {
    if '0' <= c <= '9' then Some(c as int - '0' as int)
    else if 'a' <= c <= 'f' then Some(c as int - 'a' as int + 10)
    else if 'A' <= c <= 'F' then Some(c as int - 'A' as int + 10)
    else None
  }

  /** Four hexadecimal characters; a plus may stand first. */
  function ParseHex(s: string): Option<nat>
    requires |s| == 4
  {
    var a, b, c, d := if s[0] == '+' then Some(0) else HexValue(s[0]), HexValue(s[1]), HexValue(s[2]), HexValue(s[3]);
    if a.None? || b.None? || c.None? || d.None? then None
    else Some(a.value * 4096 + b.value * 256 + c.value * 16 + d.value)
  }

  predicate Scalar(n: nat) { n < 0xD800 || 0xE000 <= n < 0x110000 }

  datatype Decoded = Decoded(c: char, used: nat)

  /** The first character of an escaped text and what it takes. */
  function DecodeOne(s: string): (r: Option<Decoded>)
    requires s != []
    ensures r.Some? ==> 1 <= r.value.used <= |s|
  {
    if s[0] != '\\' then Some(Decoded(s[0], 1))
    else if |s| < 2 then None
    else if s[1] == '\"' then Some(Decoded('\"', 2))
    else if s[1] == '\\' then Some(Decoded('\\', 2))
    else if s[1] == '/' then Some(Decoded('/', 2))
    else if s[1] == 'b' then Some(Decoded(8 as char, 2))
    else if s[1] == 'f' then Some(Decoded(12 as char, 2))
    else if s[1] == 'n' then Some(Decoded('\n', 2))
    else if s[1] == 'r' then Some(Decoded('\r', 2))
    else if s[1] == 't' then Some(Decoded('\t', 2))
    else if s[1] == 'u' && |s| >= 6 && ParseHex(s[2..6]).Some? && Scalar(ParseHex(s[2..6]).value) then
      Some(Decoded(ParseHex(s[2..6]).value as char, 6))
    else None
  }

  function Unescaped(s: string): Option<string>
    decreases |s|
  {
    if s == [] then Some([])
    else
      var first := DecodeOne(s);
      if first.None? then None
      else
        var rest := Unescaped(s[first.value.used..]);
        if rest.None? then None else Some([first.value.c] + rest.value)
  }

  /** A top-level string member, decoded; a value that is not a plain string is absent. */
  function MemberOf(body: string, key: string): Option<string> {
    var value := FindMember(AfterBrace(body), key);
    if value.None? || value.value == [] || value.value[0] != '\"' then None
    else
      var e := StringEnd(value.value[1..]);
      if e.None? then None else Unescaped(value.value[1..e.value + 1])
  }

  // ---- the reader's loops --------------------------------------------------------------------------

  /** The text from an offset on; an offset past the end leaves nothing. */
  function From(s: string, i: nat): string { if i <= |s| then s[i..] else [] }

  lemma StringEndAt(s: string, i: nat)
    requires i < |s|
    ensures StringEnd(From(s, i)) == if s[i] == '\"' then Some(0)
      else if s[i] == '\\' then Add(2, StringEnd(From(s, i + 2))) else Add(1, StringEnd(From(s, i + 1)))
  {
    var t := s[i..];
    assert t[1..] == s[i + 1..];
    if i + 2 <= |s| { assert t[2..] == s[i + 2..]; }
  }

  lemma StringEndNone(s: string, i: nat)
    requires i >= |s|
    ensures StringEnd(From(s, i)).None?
  {
  }

  method JsonStringEnd(value: string) returns (r: Option<nat>)
    ensures r == StringEnd(value)
  {
    hide StringEnd;
    var i := 0;
    assert value[0..] == value;
    while i < |value|
      invariant StringEnd(value) == Add(i, StringEnd(From(value, i)))
      decreases |value| + 2 - i
    {
      StringEndAt(value, i);
      if value[i] == '\"' { return Some(i); }
      i := i + if value[i] == '\\' then 2 else 1;
    }
    StringEndNone(value, i);
    return None;
  }

  method SkipSpaceFrom(s: string, start: nat) returns (i: nat)
    ensures i >= start && (start <= |s| ==> i <= |s|) && From(s, i) == SkipSpace(From(s, start))
  {
    i := start;
    while i < |s| && Space(s[i])
      invariant i >= start && (start <= |s| ==> i <= |s|) && SkipSpace(From(s, i)) == SkipSpace(From(s, start))
    {
      assert s[i..][1..] == s[i + 1..];
      i := i + 1;
    }
  }

  lemma NestedEndIs(t: string, depth: nat)
    requires t != []
    ensures NestedEnd(t, depth) ==
      if t[0] == '\"' then
        var e := StringEnd(t[1..]);
        if e.None? then None else Add(e.value + 2, NestedEnd(t[e.value + 2..], depth))
      else if (t[0] == '}' || t[0] == ']') && depth <= 1 then Some(1)
      else Add(1, NestedEnd(t[1..], Deeper(t[0], depth)))
  {
    hide StringEnd;
  }

  lemma NestedEndAt(s: string, i: nat, depth: nat)
    requires i < |s|
    ensures NestedEnd(s[i..], depth) ==
      if s[i] == '\"' then
        var e := StringEnd(s[i + 1..]);
        if e.None? then None else Add(e.value + 2, NestedEnd(s[i + e.value + 2..], depth))
      else if (s[i] == '}' || s[i] == ']') && depth <= 1 then Some(1)
      else Add(1, NestedEnd(s[i + 1..], Deeper(s[i], depth)))
  {
    hide StringEnd, NestedEnd;
    var t := s[i..];
    assert t[1..] == s[i + 1..];
    NestedEndIs(t, depth);
    var e := StringEnd(s[i + 1..]);
    if e.Some? { assert t[e.value + 2..] == s[i + e.value + 2..]; }
  }

  lemma NestedEndNone(depth: nat) ensures NestedEnd([], depth).None? {}

  method NestedEndFrom(body: string, start: nat) returns (r: Option<nat>)
    requires start < |body| && (body[start] == '{' || body[start] == '[')
    ensures r == Add(start, NestedEnd(body[start..], 0))
  {
    hide StringEnd, NestedEnd;
    var depth := 0;
    var i := start;
    while i < |body|
      invariant start <= i <= |body|
      invariant depth >= 0 && (i == start || depth >= 1)
      invariant Add(start, NestedEnd(body[start..], 0)) == Add(i, NestedEnd(body[i..], depth))
    {
      NestedEndAt(body, i, depth);
      if body[i] == '\"' {
        var e := JsonStringEnd(body[i + 1..]);
        if e.None? { return None; }
        i := i + 1 + e.value + 1;
        continue;
      }
      if body[i] == '{' || body[i] == '[' {
        depth := depth + 1;
      } else if body[i] == '}' || body[i] == ']' {
        depth := depth - 1;
        if depth == 0 { return Some(i + 1); }
      }
      i := i + 1;
    }
    NestedEndNone(depth);
    return None;
  }

  method ValueEndFrom(body: string, start: nat) returns (r: Option<nat>)
    ensures r == Add(start, ValueEnd(From(body, start)))
    ensures r.Some? ==> start <= r.value <= |body|
  {
    hide StringEnd, NestedEnd;
    if start >= |body| { return None; }
    assert From(body, start)[1..] == body[start + 1..];
    if body[start] == '\"' {
      var e := JsonStringEnd(body[start + 1..]);
      return Add(start + 2, e);
    }
    if body[start] == '{' || body[start] == '[' {
      r := NestedEndFrom(body, start);
      return;
    }
    var i := start;
    while i < |body| && body[i] != ',' && body[i] != '}'
      invariant start <= i <= |body| && i + TokenEnd(body[i..]) == start + TokenEnd(body[start..])
    {
      assert body[i..][1..] == body[i + 1..];
      i := i + 1;
    }
    return Some(i);
  }

  /** The parts of a member, as the walk finds them one after another. */
  lemma FirstMemberParts(s: string, t: string, e: nat, u: string, v: string, n: nat)
    requires t == SkipSpace(s) && t != [] && t[0] == '\"' && StringEnd(t[1..]) == Some(e)
    requires u == SkipSpace(t[e + 2..]) && u != [] && u[0] == ':'
    requires v == SkipSpace(u[1..]) && ValueEnd(v) == Some(n)
    ensures FirstMember(s) == Some(Found(t[1..e + 1], v[..n], v[n..]))
  {
    hide StringEnd, SkipSpace, ValueEnd;
  }

  lemma NoName(s: string, t: string)
    requires t == SkipSpace(s) && (t == [] || t[0] != '\"' || StringEnd(t[1..]).None?)
    ensures FirstMember(s).None?
  {
    hide StringEnd, SkipSpace, ValueEnd;
  }

  lemma NoValue(s: string, t: string, e: nat, u: string)
    requires t == SkipSpace(s) && t != [] && t[0] == '\"' && StringEnd(t[1..]) == Some(e)
    requires u == SkipSpace(t[e + 2..]) && (u == [] || u[0] != ':' || ValueEnd(SkipSpace(u[1..])).None?)
    ensures FirstMember(s).None?
  {
    hide StringEnd, SkipSpace, ValueEnd;
  }

  lemma FromFrom(s: string, i: nat, k: nat)
    requires i + k <= |s|
    ensures From(s, i)[k..] == From(s, i + k)
  {
  }

  lemma FromHead(s: string, i: nat)
    ensures i >= |s| ==> From(s, i) == []
    ensures i < |s| ==> From(s, i) != [] && From(s, i)[0] == s[i] && |From(s, i)| == |s| - i
  {
  }

  lemma FromSlice(s: string, i: nat, a: nat, b: nat)
    requires i <= |s| && a <= b && i + b <= |s|
    ensures |From(s, i)| == |s| - i && From(s, i)[a..b] == s[i + a..i + b]
  {
  }

  /** The member at an offset: its name, and where its value lies. */
  method FirstMemberFrom(body: string, start: nat) returns (name: string, from: nat, past: Option<nat>)
    ensures past.None? ==> FirstMember(From(body, start)).None?
    ensures past.Some? ==> start <= from <= past.value <= |body| && start < past.value
    ensures past.Some? ==>
      FirstMember(From(body, start)) == Some(Found(name, body[from..past.value], From(body, past.value)))
  {
    hide StringEnd, ValueEnd, SkipSpace, FirstMember, From;
    name, from, past := "", start, None;
    var i := SkipSpaceFrom(body, start);
    ghost var t := From(body, i);
    FromHead(body, i);
    if i >= |body| || body[i] != '\"' {
      NoName(From(body, start), t);
      return;
    }
    FromFrom(body, i, 1);
    var e := JsonStringEnd(From(body, i + 1));
    if e.None? {
      NoName(From(body, start), t);
      return;
    }
    var end := i + 1 + e.value;
    name := body[i + 1..end];
    FromSlice(body, i, 1, e.value + 1);
    FromFrom(body, i, e.value + 2);
    from, past := MemberValueFrom(body, end + 1, From(body, start), t, e.value);
  }

  /** After a name that ended at `e` within `t`: the colon and the value. */
  method MemberValueFrom(body: string, at: nat, ghost s: string, ghost t: string, ghost e: nat)
    returns (from: nat, past: Option<nat>)
    requires at <= |body|
    requires t == SkipSpace(s) && t != [] && t[0] == '\"' && StringEnd(t[1..]) == Some(e) &&
      From(body, at) == t[e + 2..]
    ensures past.None? ==> FirstMember(s).None?
    ensures past.Some? ==> at < from <= past.value <= |body|
    ensures past.Some? ==> FirstMember(s) == Some(Found(t[1..e + 1], body[from..past.value], From(body, past.value)))
  {
    hide StringEnd, ValueEnd, SkipSpace, FirstMember, From;
    var i := SkipSpaceFrom(body, at);
    ghost var u := From(body, i);
    FromHead(body, i);
    if i >= |body| || body[i] != ':' {
      NoValue(s, t, e, u);
      return at, None;
    }
    FromFrom(body, i, 1);
    from := SkipSpaceFrom(body, i + 1);
    ghost var v := From(body, from);
    past := ValueEndFrom(body, from);
    if past.None? {
      NoValue(s, t, e, u);
    } else {
      FirstMemberParts(s, t, e, u, v, past.value - from);
      FromSlice(body, from, 0, past.value - from);
      FromFrom(body, from, past.value - from);
    }
  }

  lemma FindMemberAt(s: string, key: string, m: Found)
    requires FirstMember(s) == Some(m)
    ensures FindMember(s, key) == if m.name == key then Some(m.value)
      else var w := SkipSpace(m.rest); if w == [] || w[0] != ',' then None else FindMember(w[1..], key)
  {
    hide FirstMember, SkipSpace;
  }

  lemma FindMemberNone(s: string, key: string)
    requires FirstMember(s).None?
    ensures FindMember(s, key).None?
  {
    hide FirstMember;
  }

  /** The offset after the object's own brace; past the end when there is none. */
  method PastBrace(body: string) returns (i: nat)
    ensures From(body, i) == AfterBrace(body)
  {
    i := 0;
    assert body[0..] == body;
    while i < |body| && body[i] != '{'
      invariant i <= |body| && AfterBrace(body[i..]) == AfterBrace(body)
    {
      assert body[i..][1..] == body[i + 1..];
      i := i + 1;
    }
    if i < |body| { assert body[i..][1..] == body[i + 1..]; }
    i := i + 1;
  }

  /** Walk an object's own members until the key is found. */
  method TopLevelMember(body: string, key: string) returns (r: Option<string>)
    ensures r == FindMember(AfterBrace(body), key)
  {
    hide FirstMember, SkipSpace, FindMember, From, AfterBrace;
    var i := PastBrace(body);
    while true
      invariant FindMember(From(body, i), key) == FindMember(AfterBrace(body), key)
      decreases |body| + 1 - i
    {
      var name, from, past := FirstMemberFrom(body, i);
      if past.None? {
        FindMemberNone(From(body, i), key);
        return None;
      }
      FindMemberAt(From(body, i), key, Found(name, body[from..past.value], From(body, past.value)));
      if name == key { return Some(body[from..past.value]); }
      i := SkipSpaceFrom(body, past.value);
      FromHead(body, i);
      if i >= |body| || body[i] != ',' { return None; }
      FromFrom(body, i, 1);
      i := i + 1;
    }
  }

  /** Decode a string's escapes, a character at a time. */
  method JsonUnescape(value: string) returns (r: Option<string>)
    ensures r == Unescaped(value)
  {
    hide DecodeOne;
    var out, i := "", 0;
    assert value[0..] == value;
    PrependNothing(Unescaped(value));
    while i < |value|
      invariant i <= |value| && Unescaped(value) == Prepend(out, Unescaped(value[i..]))
    {
      var one := DecodeOne(value[i..]);
      if one.None? { return None; }
      assert value[i..][one.value.used..] == value[i + one.value.used..];
      PrependAgain(out, one.value.c, Unescaped(value[i + one.value.used..]));
      out := out + [one.value.c];
      i := i + one.value.used;
    }
    assert out + [] == out;
    return Some(out);
  }

  function Prepend(s: string, r: Option<string>): Option<string> { if r.None? then None else Some(s + r.value) }

  lemma PrependNothing(r: Option<string>)
    ensures Prepend("", r) == r
  {
    if r.Some? { assert "" + r.value == r.value; }
  }

  lemma PrependAgain(s: string, c: char, r: Option<string>)
    ensures Prepend(s, Prepend([c], r)) == Prepend(s + [c], r)
  {
    if r.Some? { assert s + ([c] + r.value) == s + [c] + r.value; }
  }

  method JsonMember(body: string, key: string) returns (r: Option<string>)
    ensures r == MemberOf(body, key)
  {
    hide FindMember, StringEnd, Unescaped;
    var value := TopLevelMember(body, key);
    if value.None? || value.value == [] || value.value[0] != '\"' { return None; }
    var inner := value.value[1..];
    var e := JsonStringEnd(inner);
    if e.None? { return None; }
    assert inner[..e.value] == value.value[1..e.value + 1];
    r := JsonUnescape(inner[..e.value]);
  }
}
