/** What the hook's JSON writer writes, its reader reads back.
  *
  * The reader looks for a top-level member without parsing the values it passes over, so the
  * proof follows its bracket count through any nesting.
  */
module JsonRoundTrip {
  import opened Base
  import opened JsonHook

  // ---- the round trip ------------------------------------------------------------------------------

  lemma PlainEnd(c: char, t: string)
    requires c != '\"' && c != '\\'
    ensures StringEnd([c] + t) == Add(1, StringEnd(t))
  {
    assert ([c] + t)[1..] == t;
  }

  lemma PairEnd(c: char, t: string)
    ensures StringEnd(['\\', c] + t) == Add(2, StringEnd(t))
  {
    assert (['\\', c] + t)[2..] == t;
  }

  lemma HexPlain(n: nat)
    requires n < 0x10000
    ensures forall k :: 0 <= k < 4 ==>
      HexValue(Hex4(n)[k]).Some? && Hex4(n)[k] != '\"' && Hex4(n)[k] != '\\' && Hex4(n)[k] != '+'
  {
  }

  lemma HexEnd(n: nat, t: string)
    requires n < 0x10000
    ensures StringEnd("\\u" + Hex4(n) + t) == Add(6, StringEnd(t))
  {
    hide StringEnd, HexValue;
    HexPlain(n);
    var h := Hex4(n);
    assert "\\u" + h + t == ['\\', 'u'] + ([h[0]] + ([h[1]] + ([h[2]] + ([h[3]] + t))));
    PairEnd('u', [h[0]] + ([h[1]] + ([h[2]] + ([h[3]] + t))));
    PlainEnd(h[0], [h[1]] + ([h[2]] + ([h[3]] + t)));
    PlainEnd(h[1], [h[2]] + ([h[3]] + t));
    PlainEnd(h[2], [h[3]] + t);
    PlainEnd(h[3], t);
  }

  lemma EscapeEnd(c: char, t: string)
    ensures StringEnd(Escape(c) + t) == Add(|Escape(c)|, StringEnd(t))
  {
    hide StringEnd, Hex4;
    if |Escape(c)| == 1 {
      PlainEnd(c, t);
    } else if |Escape(c)| == 2 {
      PairEnd(Escape(c)[1], t);
      assert Escape(c) == ['\\', Escape(c)[1]];
    } else {
      HexEnd(c as int, t);
    }
  }

  lemma QuoteEnds(rest: string) ensures StringEnd("\"" + rest) == Some(0) {}

  /** An escaped text ends at the quote after it, whatever it holds and whatever follows. */
  lemma {:induction false} EscapedEnd(s: string, rest: string)
    ensures StringEnd(EscapeAll(s) + ("\"" + rest)) == Some(|EscapeAll(s)|)
    decreases |s|
  {
    hide Escape, StringEnd;
    if s == [] {
      assert EscapeAll(s) + ("\"" + rest) == "\"" + rest;
      QuoteEnds(rest);
    } else {
      var t := EscapeAll(s[1..]) + ("\"" + rest);
      assert EscapeAll(s) + ("\"" + rest) == Escape(s[0]) + t;
      EscapeEnd(s[0], t);
      EscapedEnd(s[1..], rest);
    }
  }

  lemma FourDigits(n: nat)
    requires n < 0x10000
    ensures n == (n / 4096) * 4096 + (n / 256 % 16) * 256 + (n / 16 % 16) * 16 + n % 16
    ensures n / 4096 < 16
  {
    var a, b := n / 16, n / 256;
    assert b == a / 16 && n / 4096 == b / 16;
    assert n == a * 16 + n % 16 && a == b * 16 + a % 16 && b == (b / 16) * 16 + b % 16;
  }

  lemma HexReads(n: nat)
    requires n < 0x10000
    ensures ParseHex(Hex4(n)) == Some(n)
  {
    hide HexValue;
    FourDigits(n);
    var a, b, c, d := n / 4096, n / 256 % 16, n / 16 % 16, n % 16;
    DigitReads(a);
    DigitReads(b);
    DigitReads(c);
    DigitReads(d);
    assert Hex4(n) == [HEX[a], HEX[b], HEX[c], HEX[d]];
  }

  lemma DigitReads(d: nat)
    requires d < 16
    ensures HexValue(HEX[d]) == Some(d) && HEX[d] != '+'
  {
  }

  lemma EscapeReads(c: char, t: string)
    ensures DecodeOne(Escape(c) + t) == Some(Decoded(c, |Escape(c)|)) && (Escape(c) + t)[|Escape(c)|..] == t
  {
    hide Hex4, ParseHex;
    if |Escape(c)| == 6 {
      HexReads(c as int);
      assert (Escape(c) + t)[2..6] == Hex4(c as int);
    }
  }

  lemma {:induction false} UnescapeOfEscape(s: string)
    ensures Unescaped(EscapeAll(s)) == Some(s)
    decreases |s|
  {
    hide Escape, DecodeOne;
    if s != [] {
      EscapeReads(s[0], EscapeAll(s[1..]));
      UnescapeOfEscape(s[1..]);
      assert s == [s[0]] + s[1..];
    }
  }

  /** A key whose characters need no escape. */
  predicate PlainKey(s: string) { forall k :: 0 <= k < |s| ==> Escape(s[k]) == [s[k]] }

  lemma {:induction false} PlainKeyText(s: string)
    requires PlainKey(s)
    ensures EscapeAll(s) == s
    decreases |s|
  {
    hide Escape;
    if s != [] {
      PlainKeyText(s[1..]);
      assert s == [s[0]] + s[1..];
    }
  }

  // ---- nested values are passed over whole ---------------------------------------------------------

  /** A character of a bare token. */
  predicate TokenChar(c: char) {
    c != '\"' && c != ',' && c != ':' && c != '{' && c != '}' && c != '[' && c != ']' && !Space(c)
  }

  /** Tokens hold token characters, all through the value. */
  predicate Proper(v: Json)
    decreases v
  {
    match v
    case Str(_) => true
    case Token(t) => forall k :: 0 <= k < |t| ==> TokenChar(t[k])
    case List(items) => forall k :: 0 <= k < |items| ==> Proper(items[k])
    case Object(members) => forall k :: 0 <= k < |members| ==> Proper(members[k].value)
  }

  /** The bracket count is the same after the text as before it, and never closes inside. */
  ghost predicate Passed(s: string) {
    forall rest, d :: d >= 1 ==> NestedEnd(s + rest, d) == Add(|s|, NestedEnd(rest, d))
  }

  lemma PassedAt(s: string, rest: string, d: nat)
    requires Passed(s) && d >= 1
    ensures NestedEnd(s + rest, d) == Add(|s|, NestedEnd(rest, d))
  {
    hide NestedEnd;
  }

  lemma EmptyPassed()
    ensures Passed("")
  {
    hide NestedEnd;
    forall rest: string, d | d >= 1
      ensures NestedEnd("" + rest, d) == Add(0, NestedEnd(rest, d)) { assert "" + rest == rest; }
  }

  lemma ConcatPassed(s: string, t: string)
    requires Passed(s) && Passed(t)
    ensures Passed(s + t)
  {
    hide NestedEnd;
    forall rest: string, d | d >= 1 ensures NestedEnd(s + t + rest, d) == Add(|s + t|, NestedEnd(rest, d)) {
      assert s + t + rest == s + (t + rest);
    }
  }

  lemma CharPassed(c: char)
    requires c != '\"' && c != '{' && c != '}' && c != '[' && c != ']'
    ensures Passed([c])
  {
    hide StringEnd;
    forall rest: string, d | d >= 1 ensures NestedEnd([c] + rest, d) == Add(1, NestedEnd(rest, d)) {
      assert ([c] + rest)[1..] == rest;
    }
  }

  lemma {:induction false} TokenPassed(t: string)
    requires forall k :: 0 <= k < |t| ==> TokenChar(t[k])
    ensures Passed(t)
    decreases |t|
  {
    hide Passed;
    if t == [] {
      EmptyPassed();
    } else {
      TokenPassed(t[1..]);
      CharPassed(t[0]);
      ConcatPassed([t[0]], t[1..]);
      assert [t[0]] + t[1..] == t;
    }
  }

  lemma QuotedReads(t: string, n: nat, d: nat)
    requires t != [] && t[0] == '\"' && StringEnd(t[1..]) == Some(n)
    ensures NestedEnd(t, d) == Add(n + 2, NestedEnd(t[n + 2..], d))
  {
    hide StringEnd;
  }

  lemma QuotedPassed(s: string)
    ensures Passed(Quoted(s))
  {
    hide EscapeAll, StringEnd, NestedEnd;
    var e := EscapeAll(s);
    forall rest: string, d | d >= 1 ensures NestedEnd(Quoted(s) + rest, d) == Add(|Quoted(s)|, NestedEnd(rest, d)) {
      EscapedEnd(s, rest);
      var t := Quoted(s) + rest;
      assert t[1..] == e + ("\"" + rest);
      assert t[|e| + 2..] == rest;
      QuotedReads(t, |e|, d);
    }
  }

  /** Brackets around a passed text: the inner text is read one level deeper. */
  lemma BracketsClose(left: char, s: string, right: char, rest: string, d: nat)
    requires (left == '{' || left == '[') && (right == '}' || right == ']') && Passed(s)
    ensures NestedEnd([left] + s + [right] + rest, d)
      == if d == 0 then Some(|s| + 2) else Add(|s| + 2, NestedEnd(rest, d))
  {
    hide StringEnd, Passed, NestedEnd;
    OpenReads(left, s + ([right] + rest), d);
    assert [left] + s + [right] + rest == [left] + (s + ([right] + rest));
    PassedAt(s, [right] + rest, d + 1);
    CloseReads(right, rest, d);
  }

  lemma OpenReads(left: char, t: string, d: nat)
    requires left == '{' || left == '['
    ensures NestedEnd([left] + t, d) == Add(1, NestedEnd(t, d + 1))
  {
    assert ([left] + t)[1..] == t;
  }

  lemma CloseReads(right: char, t: string, d: nat)
    requires right == '}' || right == ']'
    ensures NestedEnd([right] + t, d + 1) == if d == 0 then Some(1) else Add(1, NestedEnd(t, d))
  {
    assert ([right] + t)[1..] == t;
  }

  lemma BracketsPassed(left: char, s: string, right: char)
    requires (left == '{' || left == '[') && (right == '}' || right == ']') && Passed(s)
    ensures Passed([left] + s + [right])
  {
    hide NestedEnd;
    forall rest: string, d | d >= 1
      ensures NestedEnd([left] + s + [right] + rest, d) == Add(|[left] + s + [right]|, NestedEnd(rest, d))
    {
      BracketsClose(left, s, right, rest, d);
    }
  }

  /** Every written value leaves the bracket count where it was. */
  lemma {:induction false} TextPassed(v: Json)
    requires Proper(v)
    ensures Passed(Text(v))
    decreases v
  {
    hide Passed, Quoted;
    match v
    case Str(s) => QuotedPassed(s);
    case Token(t) => TokenPassed(t);
    case List(items) =>
      ItemsPassed(items);
      BracketsPassed('[', ItemsText(items), ']');
    case Object(members) =>
      MembersPassed(members);
      BracketsPassed('{', Separated(members), '}');
  }

  lemma {:induction false} ItemsPassed(items: seq<Json>)
    requires forall k :: 0 <= k < |items| ==> Proper(items[k])
    ensures Passed(ItemsText(items))
    decreases items
  {
    hide Passed, Text, Proper;
    if items == [] {
      EmptyPassed();
    } else {
      TextPassed(items[0]);
      if |items| == 1 {
        assert Text(items[0]) + "" == Text(items[0]);
      } else {
        ItemsPassed(items[1..]);
        CharPassed(',');
        ConcatPassed(",", ItemsText(items[1..]));
        ConcatPassed(Text(items[0]), "," + ItemsText(items[1..]));
      }
    }
  }

  lemma {:induction false} MembersPassed(ms: seq<Member>)
    requires forall k :: 0 <= k < |ms| ==> Proper(ms[k].value)
    ensures Passed(Separated(ms))
    decreases ms
  {
    hide Passed, Text, Proper, Quoted;
    if ms == [] {
      EmptyPassed();
    } else {
      var last := ms[|ms| - 1];
      TextPassed(last.value);
      QuotedPassed(last.key);
      CharPassed(':');
      ConcatPassed(Quoted(last.key), ":");
      ConcatPassed(Quoted(last.key) + ":", Text(last.value));
      if |ms| == 1 {
        assert "" + MemberText(last) == MemberText(last);
      } else {
        MembersPassed(ms[..|ms| - 1]);
        CharPassed(',');
        ConcatPassed(Separated(ms[..|ms| - 1]), ",");
        ConcatPassed(Separated(ms[..|ms| - 1]) + ",", MemberText(last));
      }
    }
  }

  /** What follows a member's value inside an object. */
  predicate Delimited(rest: string) { rest != [] && (rest[0] == ',' || rest[0] == '}') }

  lemma {:induction false} TokenReads(t: string, rest: string)
    requires (forall k :: 0 <= k < |t| ==> TokenChar(t[k])) && Delimited(rest)
    ensures TokenEnd(t + rest) == |t|
    decreases |t|
  {
    if t == [] {
      assert t + rest == rest;
    } else {
      TokenReads(t[1..], rest);
      assert (t + rest)[1..] == t[1..] + rest;
    }
  }

  /** The end of any written value is found, nested ones included. */
  lemma ValueReads(v: Json, rest: string)
    requires Proper(v) && Delimited(rest)
    ensures ValueEnd(Text(v) + rest) == Some(|Text(v)|)
    ensures SkipSpace(Text(v) + rest) == Text(v) + rest
  {
    hide StringEnd, EscapeAll, NestedEnd, TokenEnd, ItemsText, Separated;
    match v
    case Str(s) =>
      EscapedEnd(s, rest);
      assert (Quoted(s) + rest)[1..] == EscapeAll(s) + ("\"" + rest);
    case Token(t) =>
      TokenReads(t, rest);
      assert (t + rest)[0] == if t == [] then rest[0] else t[0];
    case List(items) =>
      ItemsPassed(items);
      BracketsClose('[', ItemsText(items), ']', rest, 0);
    case Object(members) =>
      MembersPassed(members);
      BracketsClose('{', Separated(members), '}', rest, 0);
  }

  /** A quoted name, a colon and a value are read off the front. */
  lemma PairReads(k: string, v: string, rest: string)
    requires StringEnd(k + ("\"" + (":" + (v + rest)))) == Some(|k|)
    requires ValueEnd(v + rest) == Some(|v|) && SkipSpace(v + rest) == v + rest
    ensures FirstMember("\"" + (k + ("\"" + (":" + (v + rest))))) == Some(Found(k, v, rest))
  {
    hide StringEnd, ValueEnd;
    var after := v + rest;
    var tail := ":" + after;
    var t := "\"" + (k + ("\"" + tail));
    assert t[1..] == k + ("\"" + tail);
    assert t[1..|k| + 1] == k && t[|k| + 2..] == tail;
    assert SkipSpace(t) == t && SkipSpace(tail) == tail;
    assert tail[1..] == after;
    assert after[..|v|] == v && after[|v|..] == rest;
  }

  /** A written member is read off the front with its raw key and its value's text. */
  lemma MemberReads(m: Member, rest: string)
    requires Proper(m.value) && Delimited(rest)
    ensures FirstMember(MemberText(m) + rest) == Some(Found(EscapeAll(m.key), Text(m.value), rest))
  {
    hide StringEnd, EscapeAll, FirstMember, Text, ValueEnd, Proper;
    var k, v := EscapeAll(m.key), Text(m.value);
    EscapedEnd(m.key, ":" + (v + rest));
    ValueReads(m.value, rest);
    PairReads(k, v, rest);
    assert MemberText(m) + rest == "\"" + (k + ("\"" + (":" + (v + rest))));
  }

  lemma {:induction false} FrontSeparated(m: Member, ms: seq<Member>)
    ensures Separated([m] + ms) == MemberText(m) + if ms == [] then "" else "," + Separated(ms)
    decreases |ms|
  {
    hide MemberText;
    if ms == [] {
      assert [m] + ms == [m];
    } else {
      var init, last := ms[..|ms| - 1], ms[|ms| - 1];
      FrontSeparated(m, init);
      assert [m] + ms == ([m] + init) + [last] && ms == init + [last];
      SeparatedSnoc([m] + init, last);
      SeparatedSnoc(init, last);
      hide Separated;
      if init == [] {
        assert MemberText(m) + "" == MemberText(m);
        Around(MemberText(m), "", MemberText(last));
      } else {
        Around(MemberText(m), Separated(init) + ",", MemberText(last));
        Around(MemberText(m), Separated(init), ",");
      }
    }
  }

  lemma Around(a: string, b: string, c: string)
    ensures a + ("," + b) + c == a + ("," + (b + c))
  {
  }

  /** What a list of members says of a key: its first value. */
  function ValueFor(ms: seq<Member>, key: string): Option<Json> {
    if ms == [] then None else if ms[0].key == key then Some(ms[0].value) else ValueFor(ms[1..], key)
  }

  /** A plain key is the raw text of no other key. */
  lemma RawKey(k: string, key: string)
    requires PlainKey(key)
    ensures EscapeAll(k) == key <==> k == key
  {
    hide PlainKey, EscapeAll, Unescaped;
    PlainKeyText(key);
    UnescapeOfEscape(k);
    UnescapeOfEscape(key);
  }

  predicate AllProper(ms: seq<Member>) { forall k :: 0 <= k < |ms| ==> Proper(ms[k].value) }

  lemma {:induction false} MembersRead(ms: seq<Member>, key: string)
    requires AllProper(ms) && PlainKey(key)
    ensures var r := ValueFor(ms, key);
      FindMember(Separated(ms) + "}", key) == if r.None? then None else Some(Text(r.value))
    decreases |ms|
  {
    hide MemberText, FirstMember, PlainKey, Proper, EscapeAll, Text;
    if ms == [] {
      NothingThere(key);
      assert Separated(ms) + "}" == "}";
    } else {
      var m, rest := ms[0], ms[1..];
      assert ms == [m] + rest;
      FrontSeparated(m, rest);
      var after := if rest == [] then "}" else "," + (Separated(rest) + "}");
      MemberReads(m, after);
      RawKey(m.key, key);
      assert Separated(ms) + "}" == MemberText(m) + after;
      assert SkipSpace(after) == after;
      if rest != [] {
        assert after[1..] == Separated(rest) + "}";
        MembersRead(rest, key);
      }
    }
  }

  lemma NothingThere(key: string)
    ensures FindMember("}", key) == None
  {
  }

  lemma LiteralReads(v: string)
    ensures var q := Quoted(v);
      q != [] && q[0] == '\"' && StringEnd(q[1..]) == Some(|EscapeAll(v)|) && q[1..|EscapeAll(v)| + 1] == EscapeAll(v)
  {
    hide StringEnd, EscapeAll;
    EscapedEnd(v, "");
    assert Quoted(v)[1..] == EscapeAll(v) + ("\"" + "");
  }

  /** Only a string starts with a quote. */
  lemma OnlyStringsQuote(v: Json)
    requires Proper(v) && !v.Str?
    ensures Text(v) == [] || Text(v)[0] != '\"'
  {
    hide ItemsText, Separated;
  }

  lemma {:induction false} ValueIsProper(ms: seq<Member>, key: string)
    requires AllProper(ms) && ValueFor(ms, key).Some?
    ensures Proper(ValueFor(ms, key).value)
    decreases |ms|
  {
    hide Proper;
    if ms[0].key != key { ValueIsProper(ms[1..], key); }
  }

  /** A string member's text; another kind of value is absent. */
  function StringFor(ms: seq<Member>, key: string): Option<string> {
    var v := ValueFor(ms, key);
    if v.Some? && v.value.Str? then Some(v.value.text) else None
  }

  /** Reading a key of any written object, whatever its members hold and however deep they
    * nest, gives the top-level string written for that key and nothing else: a nested key
    * never shadows a member. */
  lemma ObjectRoundTrip(ms: seq<Member>, key: string)
    requires AllProper(ms) && PlainKey(key)
    ensures MemberOf(Text(Object(ms)), key) == StringFor(ms, key)
  {
    hide FindMember, StringEnd, Unescaped, Quoted, Separated, PlainKey, Proper, EscapeAll, AllProper;
    MembersRead(ms, key);
    var body := "{" + Separated(ms) + "}";
    assert body[0] == '{' && body[1..] == Separated(ms) + "}";
    var r := ValueFor(ms, key);
    if r.Some? {
      ValueIsProper(ms, key);
      if r.value.Str? {
        LiteralReads(r.value.text);
        UnescapeOfEscape(r.value.text);
      } else {
        OnlyStringsQuote(r.value);
      }
    }
  }

  /** Characters of a member name: they stand for themselves. */
  predicate Letter(c: char) { 'a' <= c <= 'z' || c == '_' }

  lemma LettersPlain(s: string)
    requires forall k :: 0 <= k < |s| ==> Letter(s[k])
    ensures PlainKey(s)
  {
    forall k | 0 <= k < |s| ensures Escape(s[k]) == [s[k]] { LetterPlain(s[k]); }
  }

  lemma LetterPlain(c: char)
    requires Letter(c)
    ensures Escape(c) == [c]
  {
  }

  lemma PlainConcat(s: string, t: string)
    requires PlainKey(s) && PlainKey(t)
    ensures PlainKey(s + t)
  {
    hide Escape;
  }

  lemma ContextPlain()
    ensures PlainKey(CONTEXT)
  {
    hide PlainKey;
    LettersPlain("additional");
    LettersPlain("_context");
    PlainConcat("additional", "_context");
    assert CONTEXT == "additional" + "_context";
  }

  lemma OutputPlain()
    ensures PlainKey(OUTPUT)
  {
    hide PlainKey;
    LettersPlain("updated_mcp");
    LettersPlain("_tool_output");
    PlainConcat("updated_mcp", "_tool_output");
    assert OUTPUT == "updated_mcp" + "_tool_output";
  }

  lemma InputPlain()
    ensures PlainKey(INPUT)
  {
    hide PlainKey;
    LettersPlain("updated_input");
  }

  lemma KeysPlain()
    ensures PlainKey(CONTEXT) && PlainKey(OUTPUT) && PlainKey(INPUT)
  {
    hide PlainKey;
    ContextPlain();
    OutputPlain();
    InputPlain();
  }

  /** The JSON round trip: each of the three keys read from a rendered answer gives exactly that
    * field, absent ones included, whatever its text holds. */
  lemma AnswerRoundTrip(a: Answer)
    requires !Empty(a)
    ensures MemberOf(Rendered(a), CONTEXT) == a.context
    ensures MemberOf(Rendered(a), OUTPUT) == a.output
    ensures MemberOf(Rendered(a), INPUT) == a.input
  {
    hide MemberOf, Separated, PlainKey, ValueFor;
    KeysPlain();
    var ms := Members(a);
    assert Rendered(a) == Text(Object(ms));
    ObjectRoundTrip(ms, CONTEXT);
    ObjectRoundTrip(ms, OUTPUT);
    ObjectRoundTrip(ms, INPUT);
    MembersSay(a);
  }

  lemma MembersSay(a: Answer)
    ensures var ms := Members(a);
      StringFor(ms, CONTEXT) == a.context && StringFor(ms, OUTPUT) == a.output && StringFor(ms, INPUT) == a.input
  {
    hide One, StringFor;
    assert |CONTEXT| == 18 && |OUTPUT| == 23 && |INPUT| == 13;
    ThreeSay(CONTEXT, a.context, OUTPUT, a.output, INPUT, a.input);
  }

  lemma ThreeSay(c: string, cv: Option<string>, o: string, ov: Option<string>, i: string, iv: Option<string>)
    requires c != o && c != i && o != i
    ensures var ms := One(c, cv) + One(o, ov) + One(i, iv);
      StringFor(ms, c) == cv && StringFor(ms, o) == ov && StringFor(ms, i) == iv
  {
    hide ValueFor;
    var cs, os, us := One(c, cv), One(o, ov), One(i, iv);
    var tail := os + us;
    assert cs + tail == cs + os + us && us + [] == us;
    NoneFor(c);
    NoneFor(o);
    NoneFor(i);
    FirstSays(c, cv, tail);
    SkipOther(os, us, c);
    SkipOther(us, [], c);
    SkipOther(cs, tail, o);
    FirstSays(o, ov, us);
    SkipOther(us, [], o);
    SkipOther(cs, tail, i);
    SkipOther(os, us, i);
    FirstSays(i, iv, []);
  }

  lemma NoneFor(key: string) ensures ValueFor([], key).None? {}

  /** At most one member with another key comes first. */
  lemma SkipOther(a: seq<Member>, b: seq<Member>, key: string)
    requires |a| <= 1 && forall k :: 0 <= k < |a| ==> a[k].key != key
    ensures ValueFor(a + b, key) == ValueFor(b, key)
  {
    if a == [] { assert a + b == b; } else { assert (a + b)[1..] == b; }
  }

  lemma FirstSays(key: string, value: Option<string>, rest: seq<Member>)
    ensures value.Some? ==> ValueFor(One(key, value) + rest, key) == Some(Str(value.value))
    ensures value.None? ==> ValueFor(One(key, value) + rest, key) == ValueFor(rest, key)
  {
    if value.None? { assert One(key, value) + rest == rest; }
  }
}
