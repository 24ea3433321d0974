/** Diffs as Git prints them; the parser gives back what was printed, however it is cut.
  *
  * A file is printed as its header lines and either its hunks or a binary note. Content lines
  * are arbitrary, those that look like headers and the markers of a missing newline included.
  * Names are any bytes, plain or quoted as core.quotePath says. The heading after a hunk's
  * numbers is whatever line of the file Git found above the hunk.
  */
module DiffPrint {
  import opened Base
  import Utf8
  import opened Decimal
  import opened DiffText
  import opened DiffParser

  const MODE: seq<byte> := [0x20, 0x31, 0x30, 0x30, 0x36, 0x34, 0x34]  // " 100644"

  /** A line of a hunk: removed, added, kept, or a "no newline" note. */
  datatype ContentLine = ContentLine(mark: byte, text: seq<byte>)
  datatype HunkSpec = HunkSpec(hunk: Hunk, heading: seq<byte>, content: seq<ContentLine>)
  datatype Body = NoBody | BinaryBody(note: seq<byte>) | TextBody(hunks: seq<HunkSpec>)
  
  /** A file's diff; `octal` is the core.quotePath it is printed under. */
  datatype FileSpec = FileSpec(name: Name, change: Change, extra: seq<seq<byte>>, body: Body, octal: bool)

  // ---- printing -------------------------------------------------------------------------------

  function ContentText(c: ContentLine): seq<byte> { [c.mark] + c.text }

  function ContentLines(content: seq<ContentLine>): (r: seq<seq<byte>>)
    ensures |r| == |content|
  {
    if content == [] then [] else [ContentText(content[0])] + ContentLines(content[1..])
  }

  function HunkLine(h: HunkSpec): seq<byte> { HUNK_MARK + HunkText(h.hunk, h.heading) }

  function HunkLines(h: HunkSpec): seq<seq<byte>> { [HunkLine(h)] + ContentLines(h.content) }

  function HunksLines(hunks: seq<HunkSpec>): seq<seq<byte>> {
    if hunks == [] then [] else HunkLines(hunks[0]) + HunksLines(hunks[1..])
  }

  function OldName(f: FileSpec): Option<Name> { if f.change.Added? then None else Some(f.name) }
  function NewName(f: FileSpec): Option<Name> { if f.change.Deleted? then None else Some(f.name) }

  function ModeLines(f: FileSpec): seq<seq<byte>> {
    match f.change
    case Added => [NEW_FILE + MODE]
    case Deleted => [DELETED_FILE + MODE]
    case Modified => []
  }

  function SideLines(f: FileSpec): seq<seq<byte>> {
    [OLD_MARK + SideText(A_SIDE, OldName(f), f.octal)] + [NEW_MARK + SideText(B_SIDE, NewName(f), f.octal)]
  }

  function BodyLines(f: FileSpec): seq<seq<byte>> {
    match f.body
    case NoBody => []
    case BinaryBody(note) => [BINARY + note]
    case TextBody(hunks) =>
      SideLines(f) + HunksLines(hunks)
  }

  function FileLines(f: FileSpec): seq<seq<byte>> {
    [DIFF_GIT + HeaderText(f.name, f.octal)] + ModeLines(f) + f.extra + BodyLines(f)
  }

  function DiffLines(files: seq<FileSpec>): seq<seq<byte>> {
    if files == [] then [] else FileLines(files[0]) + DiffLines(files[1..])
  }

  // ---- what can be printed ----------------------------------------------------------------------

  predicate MarkOk(c: ContentLine) { c.mark == MINUS || c.mark == PLUS || c.mark == SPACE || c.mark == BACKSLASH }

  function Olds(content: seq<ContentLine>): nat {
    if content == [] then 0
    else (if content[0].mark == MINUS || content[0].mark == SPACE then 1 else 0) + Olds(content[1..])
  }
  function News(content: seq<ContentLine>): nat {
    if content == [] then 0
    else (if content[0].mark == PLUS || content[0].mark == SPACE then 1 else 0) + News(content[1..])
  }

  predicate ContentOk(content: seq<ContentLine>) { forall k :: 0 <= k < |content| ==> MarkOk(content[k]) }

  /** The counts in the header are the content's. The heading is whatever line Git found above
    * the hunk, in whatever encoding. */
  predicate CountsOk(h: HunkSpec) {
    && HunkOk(h.hunk)
    && ContentOk(h.content) && Olds(h.content) == h.hunk.oldLen && News(h.content) == h.hunk.newLen
  }

  /** A hunk whose heading the parser can read. */
  predicate SpecOk(h: HunkSpec) { CountsOk(h) && Utf8.Valid(h.heading) }

  /** Index, mode and similarity lines say nothing to the parser. */
  predicate Ignored(line: seq<byte>) {
    StripPrefix(line, DIFF_GIT).None? && (!Utf8.Valid(line) || Classify(line).None?)
  }

  /** A file's diff as Git prints it. Nothing is asked of names, headings, content or the note on
    * binary files; the lines in between are those the parser has no use for. */
  predicate Printable(f: FileSpec) {
    && (forall k :: 0 <= k < |f.extra| ==> Ignored(f.extra[k]))
    && (f.body.TextBody? ==> forall k :: 0 <= k < |f.body.hunks| ==> CountsOk(f.body.hunks[k]))
  }

  predicate HeadingsRead(f: FileSpec) {
    f.body.TextBody? ==> forall k :: 0 <= k < |f.body.hunks| ==> Utf8.Valid(f.body.hunks[k].heading)
  }

  /** Every text of the file's headers is UTF-8: its name, its headings, its note. */
  predicate TextRead(f: FileSpec) {
    Utf8.Valid(f.name) && HeadingsRead(f) && (f.body.BinaryBody? ==> Utf8.Valid(f.body.note))
  }

  // ---- one line at a time -------------------------------------------------------------------------

  /** No content is owed. */
  predicate Between(s: State) { s.oldLeft == 0 && s.newLeft == 0 }

  lemma NotPrefix(s: seq<byte>, p: seq<byte>)
    requires p != [] && (s == [] || s[0] != p[0])
    ensures StripPrefix(s, p) == None
  {
    if |p| <= |s| { assert s[..|p|][0] == s[0]; }
  }

  /** A line that starts with a mark is of its kind. */
  lemma ClassifyIs(mark: seq<byte>, rest: seq<byte>, kind: Kind)
    requires (mark == NEW_FILE && kind == KNewFile) || (mark == DELETED_FILE && kind == KDeleted)
      || (mark == OLD_MARK && kind == KOld) || (mark == NEW_MARK && kind == KNew)
      || (mark == BINARY && kind == KBinary) || (mark == HUNK_MARK && kind == KHunk)
    ensures Classify(mark + rest) == Some(Header(kind, rest))
    ensures StripPrefix(mark + rest, DIFF_GIT) == None
    ensures Utf8.Valid(mark + rest) <==> Utf8.Valid(rest)
  {
    hide StripPrefix;
    var line := mark + rest;
    Strips(mark, rest);
    Utf8.ValidAfterAsciis(mark, rest);
    assert line[0] == mark[0];
    if mark != NEW_FILE { NotPrefix(line, NEW_FILE); }
    if mark != DELETED_FILE { NotPrefix(line, DELETED_FILE); NotPrefix(line, DIFF_GIT); } else { NotDiffGit(rest); }
    if mark != OLD_MARK { NotPrefix(line, OLD_MARK); }
    if mark != NEW_MARK { NotPrefix(line, NEW_MARK); }
    if mark != BINARY { NotPrefix(line, BINARY); }
    if mark != HUNK_MARK { NotPrefix(line, HUNK_MARK); }
    NotPrefix(line, GIT_BINARY);
  }

  lemma NotDiffGit(rest: seq<byte>)
    ensures StripPrefix(DELETED_FILE + rest, DIFF_GIT) == None
  {
    var line := DELETED_FILE + rest;
    assert line[..|DIFF_GIT|][1] == line[1] == 0x65;
  }

  lemma HeaderLineParses(lim: Limits, s: State, mark: seq<byte>, rest: seq<byte>, kind: Kind)
    requires Between(s) && s.cur.Some? && Utf8.Valid(rest)
    requires (mark == NEW_FILE && kind == KNewFile) || (mark == DELETED_FILE && kind == KDeleted)
      || (mark == OLD_MARK && kind == KOld) || (mark == NEW_MARK && kind == KNew)
      || (mark == BINARY && kind == KBinary) || (mark == HUNK_MARK && kind == KHunk)
    ensures ParseLine(lim, s, mark + rest) == OnHeader(lim, s, s.cur.value, Header(kind, rest))
  {
    hide Classify, StripPrefix, OnHeader;
    ClassifyIs(mark, rest, kind);
  }

  /** A header line whose text is not UTF-8 is passed over. */
  lemma HeaderLineSkipped(lim: Limits, s: State, mark: seq<byte>, rest: seq<byte>, kind: Kind)
    requires Between(s) && !Utf8.Valid(rest)
    requires (mark == OLD_MARK && kind == KOld) || (mark == NEW_MARK && kind == KNew) ||
      (mark == BINARY && kind == KBinary)
    ensures ParseLine(lim, s, mark + rest) == s
  {
    hide Classify, StripPrefix, OnHeader;
    ClassifyIs(mark, rest, kind);
  }

  /** The name the header gives: none when it is not UTF-8, under either setting. */
  function NameRead(name: Name): Option<Name> { if Utf8.Valid(name) then Some(name) else None }

  /** Every printed header opens its own file, whatever the name. */
  lemma OpenLineParses(lim: Limits, s: State, name: Name, octal: bool)
    requires Between(s)
    ensures ParseLine(lim, s, DIFF_GIT + HeaderText(name, octal))
      == Flush(lim, s).(cur := Some(Blank.(header := NameRead(name))))
  {
    hide StripPrefix, HeaderPath, HeaderText, Flush, Utf8.Valid;
    Strips(DIFF_GIT, HeaderText(name, octal));
    HeaderTextValid(name, octal);
    if octal || Utf8.Valid(name) { HeaderName(name, octal); }
  }

  /** Under octal quoting a quoted name is ASCII. */
  lemma {:induction false} OctalAscii(s: Name)
    ensures Utf8.Ascii(QuotedTail(s, true, []))
    decreases |s|
  {
    if s != [] {
      OctalAscii(s[1..]);
      EscapeAscii(s[0], true);
    }
  }

  lemma EscapeAscii(b: byte, octal: bool)
    requires octal || b < 0x80
    ensures Utf8.Ascii(Escape(b, octal))
  {
  }

  /** A raw quoted name is UTF-8 exactly when the name is. */
  lemma {:induction false} EscapedValid(s: Name)
    ensures Utf8.Valid(QuotedTail(s, false, [])) <==> Utf8.Valid(s)
    decreases |s|
  {
    hide Utf8.CodePoint, Escape;
    if s == [] {
      EmptyValid();
      Utf8.ValidAfterAscii(QUOTE, []);
    } else if s[0] < 0x80 {
      hide Utf8.Valid;
      EscapedValid(s[1..]);
      EscapeAscii(s[0], false);
      Utf8.ValidAfterAsciis(Escape(s[0], false), QuotedTail(s[1..], false, []));
      Utf8.ValidAfterAscii(s[0], s[1..]);
      assert s == [s[0]] + s[1..];
    } else {
      if Utf8.Valid(s) {
        var k := Utf8.FirstLen(s);
        EscapedValid(s[k..]);
        PointEscaped(s, k);
      }
      if Utf8.Valid(QuotedTail(s, false, [])) {
        var k := Utf8.FirstLen(QuotedTail(s, false, []));
        PointUnescaped(s, k);
        EscapedValid(s[k..]);
        Utf8.ValidCons(s, k);
      }
    }
  }

  /** Escaping keeps a longer code point whole. */
  lemma PointEscaped(s: Name, k: nat)
    requires 1 <= k <= 4 && k <= |s| && s[0] >= 0x80 && Utf8.CodePoint(s[..k]).Some?
    requires Utf8.Valid(QuotedTail(s[k..], false, []))
    ensures Utf8.Valid(QuotedTail(s, false, []))
  {
    hide Utf8.Valid, Utf8.CodePoint;
    var tail := QuotedTail(s[k..], false, []);
    LongPoint(s, k);
    forall j | 0 <= j < k ensures Escape(s[j], false) == [s[j]] {
      Utf8.PointHasNoAscii(s[..k], j);
      RawEscape(s[j]);
    }
    PlainRun(s, k);
    assert (s[..k] + tail)[..k] == s[..k] && (s[..k] + tail)[k..] == tail;
    Utf8.ValidCons(s[..k] + tail, k);
  }

  lemma LongPoint(s: Name, k: nat)
    requires 1 <= k <= |s| && s[0] >= 0x80 && Utf8.CodePoint(s[..k]).Some?
    ensures k >= 2
  {
    assert s[..k][0] == s[0];
  }

  lemma RawEscape(b: byte)
    requires b >= 0x80
    ensures Escape(b, false) == [b]
  {
  }

  lemma EscapeStarts(b: byte)
    requires b < 0x80
    ensures Escape(b, false)[0] < 0x80
  {
  }

  /** A longer code point at the front of a raw quoted name is the name's own. */
  lemma PointUnescaped(s: Name, k: nat)
    requires s != [] && s[0] >= 0x80 && 1 <= k <= 4
    requires var t := QuotedTail(s, false, []); k <= |t| && Utf8.CodePoint(t[..k]).Some?
    ensures k <= |s| && QuotedTail(s, false, [])[..k] == s[..k] &&
      QuotedTail(s, false, [])[k..] == QuotedTail(s[k..], false, [])
  {
    hide Utf8.CodePoint, Escape;
    var t := QuotedTail(s, false, []);
    RawEscape(s[0]);
    assert t[0] == s[0];
    LongPoint(t, k);
    RawUpTo(s, k, k);
    PlainRun(s, k);
  }

  /** As long as the quoted bytes are not ASCII they are the name's. */
  lemma {:induction false} RawUpTo(s: Name, k: nat, m: nat)
    requires m <= k && 2 <= k
    requires var t := QuotedTail(s, false, []); k <= |t| && Utf8.CodePoint(t[..k]).Some?
    ensures m <= |s| && forall j :: 0 <= j < m ==> Escape(s[j], false) == [s[j]]
    decreases m
  {
    hide Utf8.CodePoint, Escape;
    if m > 0 {
      RawUpTo(s, k, m - 1);
      var t := QuotedTail(s, false, []);
      PlainRun(s, m - 1);
      Utf8.PointHasNoAscii(t[..k], m - 1);
      assert t[..k][m - 1] == t[m - 1];
      var tail := QuotedTail(s[m - 1..], false, []);
      assert t[m - 1] == tail[0];
      if m - 1 < |s| {
        if s[m - 1] < 0x80 { EscapeStarts(s[m - 1]); } else { RawEscape(s[m - 1]); }
      }
    }
  }

  lemma {:induction false} PlainRun(s: Name, k: nat)
    requires k <= |s| && forall j :: 0 <= j < k ==> Escape(s[j], false) == [s[j]]
    ensures QuotedTail(s, false, []) == s[..k] + QuotedTail(s[k..], false, [])
    decreases k
  {
    hide Escape;
    if k == 0 {
      assert s[..0] + QuotedTail(s[0..], false, []) == QuotedTail(s, false, []);
    } else {
      PlainRun(s[1..], k - 1);
      assert s[1..][k - 1..] == s[k..];
      assert [s[0]] + (s[1..][..k - 1] + QuotedTail(s[k..], false, [])) == s[..k] + QuotedTail(s[k..], false, []);
    }
  }

  /** A label is UTF-8 exactly when octal quoting made it so or the name is. */
  lemma LabelValid(side: seq<byte>, name: Name, octal: bool)
    requires side == A_SIDE || side == B_SIDE
    ensures Utf8.Valid(Label(side, name, octal)) <==> octal || Utf8.Valid(name)
  {
    hide Utf8.Valid, QuotedTail;
    Utf8.ValidAfterAsciis(side, name);
    if PlainName(name, octal) {
      PlainWhenOctal(name, octal);
    } else {
      Utf8.ValidAfterAscii(QUOTE, QuotedTail(side + name, octal, []));
      if octal {
        OctalAscii(side + name);
        Utf8.AsciiValid(QuotedTail(side + name, octal, []));
      } else {
        EscapedValid(side + name);
      }
    }
  }

  lemma EmptyValid() ensures Utf8.Valid([]) {}

  lemma HeaderTextValid(name: Name, octal: bool)
    ensures Utf8.Valid(HeaderText(name, octal)) <==> octal || Utf8.Valid(name)
  {
    hide Utf8.Valid, Label;
    var a, b := Label(A_SIDE, name, octal), Label(B_SIDE, name, octal);
    LabelValid(A_SIDE, name, octal);
    LabelValid(B_SIDE, name, octal);
    if octal || Utf8.Valid(name) {
      Utf8.ValidAfterAscii(SPACE, b);
      Utf8.ValidConcat(a, [SPACE] + b);
      assert HeaderText(name, octal) == a + ([SPACE] + b);
    } else if Utf8.Valid(HeaderText(name, octal)) {
      Utf8.ValidUpTo(a, SPACE, b);
    }
  }

  lemma SideTextValid(side: seq<byte>, name: Option<Name>, octal: bool)
    requires side == A_SIDE || side == B_SIDE
    ensures Utf8.Valid(SideText(side, name, octal)) <==> name.None? || octal || Utf8.Valid(name.value)
  {
    hide Utf8.Valid, Label;
    if name.None? {
      Utf8.AsciiValid(DEV_NULL);
    } else {
      var label_ := Label(side, name.value, octal);
      LabelValid(side, name.value, octal);
      if SPACE in name.value {
        TabValid(label_);
      } else {
        assert label_ + [] == label_;
      }
    }
  }

  lemma TabValid(s: seq<byte>)
    ensures Utf8.Valid(s + [TAB]) <==> Utf8.Valid(s)
  {
    hide Utf8.Valid;
    if Utf8.Valid(s) {
      Utf8.AsciiValid([TAB]);
      Utf8.ValidConcat(s, [TAB]);
    }
    if Utf8.Valid(s + [TAB]) {
      assert s + [TAB] == s + [TAB] + [];
      Utf8.ValidUpTo(s, TAB, []);
    }
  }

  // ---- hunks ------------------------------------------------------------------------------------------

  lemma DigitsAscii(s: seq<byte>)
    requires Digits(s)
    ensures Utf8.Ascii(s)
  {
  }

  lemma SpecAscii(h: Hunk)
    ensures Utf8.Ascii(Spec(RangeText(h.oldStart, h.oldLen), RangeText(h.newStart, h.newLen)) + [SPACE, 0x40, 0x40])
  {
    hide Dec;
    DigitsAscii(Dec(h.oldStart));
    DigitsAscii(Dec(h.oldLen));
    DigitsAscii(Dec(h.newStart));
    DigitsAscii(Dec(h.newLen));
  }

  /** A hunk header line is UTF-8 exactly when its heading is. */
  lemma HunkTextValid(h: Hunk, heading: seq<byte>)
    ensures Utf8.Valid(HunkText(h, heading)) <==> Utf8.Valid(heading)
  {
    hide Utf8.Valid, Spec, RangeText;
    SpecAscii(h);
    var front := Spec(RangeText(h.oldStart, h.oldLen), RangeText(h.newStart, h.newLen)) + [SPACE, 0x40, 0x40];
    var tail := if heading == [] then [] else [SPACE] + heading;
    Utf8.ValidAfterAsciis(front, tail);
    Utf8.ValidAfterAscii(SPACE, heading);
  }

  /** The state a hunk header leaves. */
  function HunkOpened(lim: Limits, s: State, h: Hunk): State
    requires s.cur.Some?
  {
    s.(cur := Some(AddHunk(lim, s.cur.value, h)), oldLeft := h.oldLen, newLeft := h.newLen)
  }

  /** A hunk header is read exactly when its heading is UTF-8; otherwise the line is passed
    * over, the hunk is lost and its content is taken for headers. */
  lemma HunkLineParses(lim: Limits, s: State, h: HunkSpec)
    requires Between(s) && s.cur.Some? && HunkOk(h.hunk)
    ensures ParseLine(lim, s, HunkLine(h)) == if Utf8.Valid(h.heading) then HunkOpened(lim, s, h.hunk) else s
  {
    hide Classify, StripPrefix, ParseHunk, HunkText, Utf8.Valid;
    HunkTextValid(h.hunk, h.heading);
    ClassifyIs(HUNK_MARK, HunkText(h.hunk, h.heading), KHunk);
    HunkReads(h.hunk, h.heading);
  }

  lemma NoteIgnored(lim: Limits, s: State, text: seq<byte>)
    requires Between(s)
    ensures ParseLine(lim, s, [BACKSLASH] + text) == s
  {
    hide StripPrefix, Utf8.Valid;
    var line := [BACKSLASH] + text;
    assert line[0] == BACKSLASH;
    NotPrefix(line, DIFF_GIT);
    NotPrefix(line, NEW_FILE);
    NotPrefix(line, DELETED_FILE);
    NotPrefix(line, OLD_MARK);
    NotPrefix(line, NEW_MARK);
    NotPrefix(line, BINARY);
    NotPrefix(line, GIT_BINARY);
    NotPrefix(line, HUNK_MARK);
  }

  lemma {:induction false} NoMore(content: seq<ContentLine>)
    requires ContentOk(content) && Olds(content) == 0 && News(content) == 0 && content != []
    ensures content[0].mark == BACKSLASH
  {
  }

  /** The content a hunk owes is counted off, whatever it says. */
  lemma {:induction false} ContentParses(lim: Limits, s: State, content: seq<ContentLine>)
    requires ContentOk(content) && s.oldLeft == Olds(content) && s.newLeft == News(content)
    ensures ParseLines(lim, s, ContentLines(content)) == s.(oldLeft := 0, newLeft := 0)
    decreases |content|
  {
    hide StripPrefix, Classify, OpenFile, OnHeader;
    if content != [] {
      var line := ContentText(content[0]);
      assert ContentLines(content)[0] == line && ContentLines(content)[1..] == ContentLines(content[1..]);
      assert line[0] == content[0].mark;
      if Between(s) {
        NoMore(content);
        NoteIgnored(lim, s, content[0].text);
      }
      ContentParses(lim, ParseLine(lim, s, line), content[1..]);
    }
  }

  lemma HunkParses(lim: Limits, s: State, h: HunkSpec)
    requires Between(s) && s.cur.Some? && SpecOk(h)
    ensures ParseLines(lim, s, HunkLines(h)) == s.(cur := Some(AddHunk(lim, s.cur.value, h.hunk)))
  {
    hide ParseLine, ParseLines, HunkLine, ContentLines, Utf8.Valid, Olds, News;
    ParseTwo(lim, s, [HunkLine(h)], ContentLines(h.content));
    ParseOne(lim, s, HunkLine(h));
    HunkLineParses(lim, s, h);
    ContentParses(lim, HunkOpened(lim, s, h.hunk), h.content);
  }

  function AddHunks(lim: Limits, p: Pending, hunks: seq<HunkSpec>): Pending
    decreases |hunks|
  {
    if hunks == [] then p else AddHunks(lim, AddHunk(lim, p, hunks[0].hunk), hunks[1..])
  }

  function HunksOf(hunks: seq<HunkSpec>): (r: seq<Hunk>)
    ensures |r| == |hunks|
  {
    seq(|hunks|, k requires 0 <= k < |hunks| => hunks[k].hunk)
  }

  /** The first hunks within the limit are kept; more are noted. */
  function Kept(lim: Limits, p: Pending, hunks: seq<Hunk>): Pending
    requires |p.hunks| <= lim.hunksPerFile
  {
    var n := Min(|hunks|, lim.hunksPerFile - |p.hunks|);
    p.(hunks := p.hunks + hunks[..n], truncated := p.truncated || n < |hunks|)
  }

  lemma KeptStep(lim: Limits, p: Pending, h: Hunk, more: seq<Hunk>)
    requires |p.hunks| <= lim.hunksPerFile
    ensures |AddHunk(lim, p, h).hunks| <= lim.hunksPerFile
    ensures Kept(lim, AddHunk(lim, p, h), more) == Kept(lim, p, [h] + more)
  {
    var n := Min(1 + |more|, lim.hunksPerFile - |p.hunks|);
    if n > 0 {
      assert p.hunks + [h] + more[..n - 1] == p.hunks + ([h] + more)[..n];
    } else {
      assert p.hunks + more[..0] == p.hunks + ([h] + more)[..0];
    }
  }

  lemma {:induction false} AddHunksKeeps(lim: Limits, p: Pending, hunks: seq<HunkSpec>)
    requires |p.hunks| <= lim.hunksPerFile
    ensures AddHunks(lim, p, hunks) == Kept(lim, p, HunksOf(hunks))
    decreases |hunks|
  {
    if hunks == [] {
      assert p.hunks + HunksOf(hunks)[..0] == p.hunks;
    } else {
      hide AddHunk, Kept;
      KeptStep(lim, p, hunks[0].hunk, HunksOf(hunks[1..]));
      AddHunksKeeps(lim, AddHunk(lim, p, hunks[0].hunk), hunks[1..]);
      assert HunksOf(hunks) == [hunks[0].hunk] + HunksOf(hunks[1..]);
    }
  }

  // ---- files --------------------------------------------------------------------------------------------

  lemma {:induction false} IgnoredParse(lim: Limits, s: State, lines: seq<seq<byte>>)
    requires Between(s) && forall k :: 0 <= k < |lines| ==> Ignored(lines[k])
    ensures ParseLines(lim, s, lines) == s
    decreases |lines|
  {
    hide StripPrefix, Classify, Utf8.Valid, OnHeader, OpenFile;
    if lines != [] {
      assert ParseLine(lim, s, lines[0]) == s;
      IgnoredParse(lim, s, lines[1..]);
    }
  }

  lemma ModeParses(lim: Limits, s: State, f: FileSpec)
    requires Between(s) && s.cur.Some?
    ensures ParseLines(lim, s, ModeLines(f)) ==
      match f.change
      case Added => s.(cur := Some(s.cur.value.(added := true)))
      case Deleted => s.(cur := Some(s.cur.value.(deleted := true)))
      case Modified => s
  {
    hide ParseLine, Utf8.Valid;
    EmptyValid();
    Utf8.ValidAfterAsciis(MODE, []);
    assert MODE + [] == MODE;
    match f.change
    case Added =>
      ParseOne(lim, s, NEW_FILE + MODE);
      HeaderLineParses(lim, s, NEW_FILE, MODE, KNewFile);
    case Deleted =>
      ParseOne(lim, s, DELETED_FILE + MODE);
      HeaderLineParses(lim, s, DELETED_FILE, MODE, KDeleted);
    case Modified =>
  }

  /** What a side line gives: its name or `/dev/null`; of a name that is not UTF-8 nothing, the
    * line being passed over when it is raw and read as no name when it is quoted. */
  function SideRead(name: Option<Name>, octal: bool): Option<Option<Name>> {
    if name.None? || Utf8.Valid(name.value) then Some(name) else if octal then Some(None) else None
  }

  lemma OldSideParses(lim: Limits, s: State, name: Option<Name>, octal: bool)
    requires Between(s) && s.cur.Some? && s.cur.value.old'.None?
    ensures ParseLine(lim, s, OLD_MARK + SideText(A_SIDE, name, octal))
      == s.(cur := Some(s.cur.value.(old' := SideRead(name, octal))))
  {
    hide ParseLine, SidePath, SideText, Utf8.Valid;
    var text := SideText(A_SIDE, name, octal);
    SideTextValid(A_SIDE, name, octal);
    if Utf8.Valid(text) {
      HeaderLineParses(lim, s, OLD_MARK, text, KOld);
      if name.None? { SideNone(A_SIDE, octal); } else { SideName(A_SIDE, name.value, octal); }
    } else {
      HeaderLineSkipped(lim, s, OLD_MARK, text, KOld);
    }
  }

  lemma NewSideParses(lim: Limits, s: State, name: Option<Name>, octal: bool)
    requires Between(s) && s.cur.Some? && s.cur.value.new'.None?
    ensures ParseLine(lim, s, NEW_MARK + SideText(B_SIDE, name, octal))
      == s.(cur := Some(s.cur.value.(new' := SideRead(name, octal))))
  {
    hide ParseLine, SidePath, SideText, Utf8.Valid;
    var text := SideText(B_SIDE, name, octal);
    SideTextValid(B_SIDE, name, octal);
    if Utf8.Valid(text) {
      HeaderLineParses(lim, s, NEW_MARK, text, KNew);
      if name.None? { SideNone(B_SIDE, octal); } else { SideName(B_SIDE, name.value, octal); }
    } else {
      HeaderLineSkipped(lim, s, NEW_MARK, text, KNew);
    }
  }

  /** The pending file after its header and mode lines. */
  function Opened(f: FileSpec): Pending {
    Blank.(header := NameRead(f.name), added := f.change.Added?, deleted := f.change.Deleted?)
  }

  /** And after its side lines. */
  function Sided(f: FileSpec): Pending {
    Opened(f).(old' := SideRead(OldName(f), f.octal), new' := SideRead(NewName(f), f.octal))
  }

  lemma SidesParse(lim: Limits, s: State, f: FileSpec)
    requires Between(s) && s.cur == Some(Opened(f))
    ensures ParseLines(lim, s, SideLines(f)) == s.(cur := Some(Sided(f)))
  {
    hide ParseLine, ParseLines, SideText, SideRead;
    var a, b := OLD_MARK + SideText(A_SIDE, OldName(f), f.octal), NEW_MARK + SideText(B_SIDE, NewName(f), f.octal);
    ParseTwo(lim, s, [a], [b]);
    ParseOne(lim, s, a);
    OldSideParses(lim, s, OldName(f), f.octal);
    var mid := s.(cur := Some(Opened(f).(old' := SideRead(OldName(f), f.octal))));
    ParseOne(lim, mid, b);
    NewSideParses(lim, mid, NewName(f), f.octal);
  }

  lemma FlushBetween(lim: Limits, s: State)
    requires Between(s)
    ensures Between(Flush(lim, s)) && Flush(lim, s).cur.None?
  {
  }

  /** The file as printed, within the hunk limit. */
  function ExpectedFile(lim: Limits, f: FileSpec): FileDiff {
    var hunks := if f.body.TextBody? then HunksOf(f.body.hunks) else [];
    FileDiff(f.name, f.change, f.body.BinaryBody?, hunks[..Min(|hunks|, lim.hunksPerFile)], |hunks| > lim.hunksPerFile)
  }

  function ExpectedFiles(lim: Limits, files: seq<FileSpec>): (r: seq<FileDiff>)
    ensures |r| == |files|
  {
    seq(|files|, k requires 0 <= k < |files| => ExpectedFile(lim, files[k]))
  }
}
