/** Printed diffs come back, however their bytes are cut; and the hunks that do not. */
module DiffRoundTrip {
  import opened Base
  import Utf8
  import opened DiffText
  import opened DiffParser
  import opened DiffPrint
  import L = Lines

  // ---- lines that no hunk owns -----------------------------------------------------------------------

  /** A side's name after lines that no hunk owns: the last of them that is UTF-8 and has the
    * side's mark gives it. */
  function SideAfter(
    mark: seq<byte>, side: seq<byte>, lines: seq<seq<byte>>, at: Option<Option<Name>>): Option<Option<Name>>
    decreases |lines|
  {
    if lines == [] then at
    else
      var rest := StripPrefix(lines[0], mark);
      SideAfter(mark, side, lines[1..], if Utf8.Valid(lines[0]) && rest.Some? then Some(SidePath(rest.value, side))
        else at)
  }

  /** What such lines do to the pending file: nothing but to its side names. */
  function Touched(p: Pending, lines: seq<seq<byte>>): Pending {
    p.(old' := SideAfter(OLD_MARK, A_SIDE, lines, p.old'), new' := SideAfter(NEW_MARK, B_SIDE, lines, p.new'))
  }

  lemma {:induction false} SideAfterTwo(
    mark: seq<byte>, side: seq<byte>, a: seq<seq<byte>>, b: seq<seq<byte>>, at: Option<Option<Name>>)
    ensures SideAfter(mark, side, a + b, at) == SideAfter(mark, side, b, SideAfter(mark, side, a, at))
    decreases |a|
  {
    hide StripPrefix, SidePath, Utf8.Valid;
    if a == [] {
      assert a + b == b;
    } else {
      assert (a + b)[1..] == a[1..] + b;
      var rest := StripPrefix(a[0], mark);
      SideAfterTwo(mark, side, a[1..], b, if Utf8.Valid(a[0]) && rest.Some? then Some(SidePath(rest.value, side))
        else at);
    }
  }

  lemma TouchedTwo(p: Pending, a: seq<seq<byte>>, b: seq<seq<byte>>)
    ensures Touched(Touched(p, a), b) == Touched(p, a + b)
  {
    hide SideAfter;
    SideAfterTwo(OLD_MARK, A_SIDE, a, b, p.old');
    SideAfterTwo(NEW_MARK, B_SIDE, a, b, p.new');
  }

  lemma SideAfterOne(mark: seq<byte>, side: seq<byte>, line: seq<byte>, at: Option<Option<Name>>)
    ensures SideAfter(mark, side, [line], at) ==
      var rest := StripPrefix(line, mark); if Utf8.Valid(line) && rest.Some? then Some(SidePath(rest.value, side))
        else at
  {
    hide StripPrefix, SidePath, Utf8.Valid;
    assert [line][1..] == [];
  }

  /** With nothing owed, a line that starts like content adds no hunk and opens no file. */
  lemma StrayContent(lim: Limits, s: State, c: ContentLine)
    requires Between(s) && s.cur.Some? && MarkOk(c)
    ensures ParseLine(lim, s, ContentText(c)) == s.(cur := Some(Touched(s.cur.value, [ContentText(c)])))
  {
    hide StripPrefix, Utf8.Valid, SidePath, SideAfter;
    var line := ContentText(c);
    assert line[0] == c.mark;
    NotPrefix(line, DIFF_GIT);
    NotPrefix(line, NEW_FILE);
    NotPrefix(line, DELETED_FILE);
    NotPrefix(line, BINARY);
    NotPrefix(line, GIT_BINARY);
    NotPrefix(line, HUNK_MARK);
    if line[0] != MINUS { NotPrefix(line, OLD_MARK); }
    if line[0] != PLUS { NotPrefix(line, NEW_MARK); }
    SideAfterOne(OLD_MARK, A_SIDE, line, s.cur.value.old');
    SideAfterOne(NEW_MARK, B_SIDE, line, s.cur.value.new');
  }

  lemma {:induction false} StrayContents(lim: Limits, s: State, content: seq<ContentLine>)
    requires Between(s) && s.cur.Some? && ContentOk(content)
    ensures ParseLines(lim, s, ContentLines(content)) == s.(cur := Some(Touched(s.cur.value, ContentLines(content))))
    decreases |content|
  {
    hide ParseLine, ContentText, SideAfter;
    if content == [] {
      NothingTouched(s.cur.value);
    } else {
      hide Touched;
      var first, rest := ContentText(content[0]), ContentLines(content[1..]);
      StrayContent(lim, s, content[0]);
      assert ContentLines(content)[0] == first && ContentLines(content)[1..] == rest;
      StrayContents(lim, ParseLine(lim, s, first), content[1..]);
      TouchedTwo(s.cur.value, [first], rest);
    }
  }

  lemma NothingTouched(p: Pending) ensures Touched(p, []) == p {}

  /** A printed hunk is added exactly when its heading is UTF-8; its content is otherwise read
    * as headers, which can touch the side names only. */
  lemma HunkParsesEither(lim: Limits, s: State, h: HunkSpec)
    requires Between(s) && s.cur.Some? && CountsOk(h)
    ensures ParseLines(lim, s, HunkLines(h)) ==
      s.(cur := Some(if Utf8.Valid(h.heading) then AddHunk(lim, s.cur.value, h.hunk)
        else Touched(s.cur.value, ContentLines(h.content))))
  {
    hide ParseLine, ParseLines, HunkLine, ContentLines, Utf8.Valid, Olds, News, Touched;
    if Utf8.Valid(h.heading) {
      HunkParses(lim, s, h);
    } else {
      ParseTwo(lim, s, [HunkLine(h)], ContentLines(h.content));
      ParseOne(lim, s, HunkLine(h));
      HunkLineParses(lim, s, h);
      StrayContents(lim, s, h.content);
    }
  }

  // ---- what comes of a printed file ------------------------------------------------------------------

  /** The hunks whose heading can be read. */
  function Readable(hunks: seq<HunkSpec>): (r: seq<HunkSpec>)
    ensures |r| <= |hunks|
  {
    if hunks == [] then []
    else (if Utf8.Valid(hunks[0].heading) then [hunks[0]] else []) + Readable(hunks[1..])
  }

  /** The content lines of the others, which no hunk owns. */
  function Lost(hunks: seq<HunkSpec>): seq<seq<byte>> {
    if hunks == [] then []
    else (if Utf8.Valid(hunks[0].heading) then [] else ContentLines(hunks[0].content)) + Lost(hunks[1..])
  }

  /** The file with those hunks only. */
  function ReadablePart(f: FileSpec): FileSpec {
    if f.body.TextBody? then f.(body := TextBody(Readable(f.body.hunks))) else f
  }

  /** Every hunk is readable exactly when none is missing. */
  lemma {:induction false} ReadableIsAll(hunks: seq<HunkSpec>)
    ensures |Readable(hunks)| == |hunks| <==> forall k :: 0 <= k < |hunks| ==> Utf8.Valid(hunks[k].heading)
    ensures |Readable(hunks)| == |hunks| ==> Readable(hunks) == hunks && Lost(hunks) == []
    decreases |hunks|
  {
    hide Utf8.Valid;
    if hunks != [] {
      ReadableIsAll(hunks[1..]);
      assert forall k :: 1 <= k < |hunks| ==> hunks[k] == hunks[1..][k - 1];
      assert hunks == [hunks[0]] + hunks[1..];
    }
  }

  lemma {:induction false} AddHunksTouched(lim: Limits, p: Pending, hunks: seq<HunkSpec>, lines: seq<seq<byte>>)
    ensures AddHunks(lim, Touched(p, lines), hunks) == Touched(AddHunks(lim, p, hunks), lines)
    ensures AddHunks(lim, p, hunks).old' == p.old' && AddHunks(lim, p, hunks).new' == p.new'
    decreases |hunks|
  {
    hide SideAfter;
    if hunks != [] { AddHunksTouched(lim, AddHunk(lim, p, hunks[0].hunk), hunks[1..], lines); }
  }

  /** Any run of printed hunks adds those with a UTF-8 heading, in order, and the content of the
    * others is read as lines that no hunk owns. */
  lemma {:induction false} HunksParseEither(lim: Limits, s: State, hunks: seq<HunkSpec>)
    requires Between(s) && s.cur.Some? && forall k :: 0 <= k < |hunks| ==> CountsOk(hunks[k])
    ensures ParseLines(lim, s, HunksLines(hunks))
      == s.(cur := Some(Touched(AddHunks(lim, s.cur.value, Readable(hunks)), Lost(hunks))))
    decreases |hunks|
  {
    hide HunkLines, AddHunk, CountsOk, Utf8.Valid, Touched, ContentLines;
    if hunks == [] {
      NothingTouched(s.cur.value);
    } else {
      var p, rest := s.cur.value, hunks[1..];
      ParseTwo(lim, s, HunkLines(hunks[0]), HunksLines(rest));
      HunkParsesEither(lim, s, hunks[0]);
      HunksParseEither(lim, ParseLines(lim, s, HunkLines(hunks[0])), rest);
      if Utf8.Valid(hunks[0].heading) {
        assert Readable(hunks)[1..] == Readable(rest) && Lost(hunks) == Lost(rest);
      } else {
        assert Readable(hunks) == Readable(rest);
        AddHunksTouched(lim, p, Readable(rest), ContentLines(hunks[0].content));
        TouchedTwo(AddHunks(lim, p, Readable(rest)), ContentLines(hunks[0].content), Lost(rest));
      }
    }
  }

  /** What the parser holds of a printed file when the next one begins. */
  function RealPending(lim: Limits, f: FileSpec): Pending {
    match f.body
    case NoBody => Opened(f)
    case BinaryBody(note) => Opened(f).(binary := Utf8.Valid(note))
    case TextBody(hunks) => Touched(AddHunks(lim, Sided(f), Readable(hunks)), Lost(hunks))
  }

  lemma BodyParses(lim: Limits, s: State, f: FileSpec)
    requires Between(s) && Printable(f) && s.cur == Some(Opened(f))
    ensures ParseLines(lim, s, BodyLines(f)) == s.(cur := Some(RealPending(lim, f)))
  {
    hide ParseLine, AddHunks, HunksLines, CountsOk, SideLines, Utf8.Valid, Ignored, Readable, Lost, Touched, Sided;
    match f.body
    case NoBody =>
    case BinaryBody(note) =>
      ParseOne(lim, s, BINARY + note);
      if Utf8.Valid(note) {
        HeaderLineParses(lim, s, BINARY, note, KBinary);
      } else {
        HeaderLineSkipped(lim, s, BINARY, note, KBinary);
      }
    case TextBody(hunks) =>
      SidesParse(lim, s, f);
      ParseTwo(lim, s, SideLines(f), HunksLines(hunks));
      HunksParseEither(lim, s.(cur := Some(Sided(f))), hunks);
  }

  /** A printed file opens its own record and fills it, whatever its name: nothing of it reaches
    * the file before. */
  lemma FileParses(lim: Limits, s: State, f: FileSpec)
    requires Between(s) && Printable(f)
    ensures ParseLines(lim, s, FileLines(f)) == Flush(lim, s).(cur := Some(RealPending(lim, f)))
  {
    hide ParseLine, ParseLines, Flush, BodyLines, ModeLines, HeaderText, Ignored, CountsOk, Utf8.Valid, RealPending;
    var first := DIFF_GIT + HeaderText(f.name, f.octal);
    var a := Flush(lim, s).(cur := Some(Blank.(header := NameRead(f.name))));
    var b := a.(cur := Some(Opened(f)));
    FlushBetween(lim, s);
    ParseOne(lim, s, first);
    OpenLineParses(lim, s, f.name, f.octal);
    ParseTwo(lim, s, [first], ModeLines(f));
    ModeParses(lim, a, f);
    ParseTwo(lim, s, [first] + ModeLines(f), f.extra);
    IgnoredParse(lim, b, f.extra);
    ParseTwo(lim, s, [first] + ModeLines(f) + f.extra, BodyLines(f));
    BodyParses(lim, b, f);
  }

  // ---- what a caller is given of it --------------------------------------------------------------------

  /** The file ends with a path, and is given; without one it is counted as unreadable. */
  predicate HasPath(lim: Limits, f: FileSpec) { PathOf(RealPending(lim, f)).Some? }

  function RealFile(lim: Limits, f: FileSpec): FileDiff
    requires HasPath(lim, f)
  {
    var p := RealPending(lim, f);
    FileDiff(PathOf(p).value, ChangeOf(p), p.binary, p.hunks, p.truncated)
  }

  /** The sides' names at the end: those of the side lines, unless lines that no hunk owns gave
    * others. */
  function OldSide(f: FileSpec): Option<Option<Name>> {
    if f.body.TextBody? then SideAfter(OLD_MARK, A_SIDE, Lost(f.body.hunks), SideRead(OldName(f), f.octal)) else None
  }

  function NewSide(f: FileSpec): Option<Option<Name>> {
    if f.body.TextBody? then SideAfter(NEW_MARK, B_SIDE, Lost(f.body.hunks), SideRead(NewName(f), f.octal)) else None
  }

  /** What the record of a printed file holds. */
  lemma RealFields(lim: Limits, f: FileSpec)
    ensures var p, e := RealPending(lim, f), ExpectedFile(lim, ReadablePart(f));
      && p.header == NameRead(f.name) && p.old' == OldSide(f) && p.new' == NewSide(f)
      && p.added == f.change.Added? && p.deleted == f.change.Deleted?
      && p.hunks == e.hunks && p.truncated == e.truncated
      && p.binary == (f.body.BinaryBody? && Utf8.Valid(f.body.note))
  {
    hide AddHunks, Utf8.Valid, Readable, Lost, SideAfter, SideRead;
    if f.body.TextBody? {
      var hunks := Readable(f.body.hunks);
      AddHunksKeeps(lim, Sided(f), hunks);
      var kept := HunksOf(hunks)[..Min(|hunks|, lim.hunksPerFile)];
      assert [] + kept == kept;
    }
  }

  lemma SidesWhenRead(f: FileSpec)
    requires HeadingsRead(f) && f.body.TextBody?
    ensures OldSide(f) == SideRead(OldName(f), f.octal) && NewSide(f) == SideRead(NewName(f), f.octal)
    ensures Readable(f.body.hunks) == f.body.hunks
  {
    hide Utf8.Valid, Readable, Lost, SideRead;
    ReadableIsAll(f.body.hunks);
  }

  /** A file with a UTF-8 name always has a path. One without has none when its headings are read,
    * whatever its content; else it has the path, if any, that the last line no hunk owns gave the
    * side its kind of change is read from. */
  lemma WhoHasPath(lim: Limits, f: FileSpec)
    ensures Utf8.Valid(f.name) ==> HasPath(lim, f)
    ensures !Utf8.Valid(f.name) && HeadingsRead(f) ==> !HasPath(lim, f)
    ensures !Utf8.Valid(f.name) ==>
      var p := RealPending(lim, f); PathOf(p) == Flat(if ChangeOf(p).Deleted? then OldSide(f) else NewSide(f))
  {
    hide RealPending, ExpectedFile, SideAfter, Utf8.Valid, Lost, Readable, ReadablePart;
    RealFields(lim, f);
    if HeadingsRead(f) && f.body.TextBody? { SidesWhenRead(f); }
  }

  /** With every text read the file is given as printed. */
  lemma ReadIsExpected(lim: Limits, f: FileSpec)
    requires TextRead(f)
    ensures HasPath(lim, f) && RealFile(lim, f) == ExpectedFile(lim, f)
  {
    hide RealPending, SideAfter, Utf8.Valid, Lost, Readable, HunksOf;
    RealFields(lim, f);
    if f.body.TextBody? { SidesWhenRead(f); }
  }

  /** What is given of a file means: its readable hunks within the limit, and the file as printed
    * when every text of its headers is UTF-8. */
  predicate Given(lim: Limits, f: FileSpec, d: FileDiff) {
    var e := ExpectedFile(lim, ReadablePart(f));
    && d.hunks == e.hunks && d.truncated == e.truncated
    && d.binary == (f.body.BinaryBody? && Utf8.Valid(f.body.note))
    && (TextRead(f) ==> d == ExpectedFile(lim, f))
  }

  lemma RealIsGiven(lim: Limits, f: FileSpec)
    requires HasPath(lim, f)
    ensures Given(lim, f, RealFile(lim, f))
  {
    hide RealPending, ExpectedFile, Utf8.Valid, TextRead;
    RealFields(lim, f);
    if TextRead(f) { ReadIsExpected(lim, f); }
  }

  /** Within the hunk limit a file is given as printed if and only if its name, its headings and
    * its note are UTF-8. */
  lemma GivenExactly(lim: Limits, f: FileSpec)
    requires f.body.TextBody? ==> |f.body.hunks| <= lim.hunksPerFile
    ensures HasPath(lim, f) && RealFile(lim, f) == ExpectedFile(lim, f) <==> TextRead(f)
  {
    hide RealPending, Utf8.Valid, Readable, HasPath;
    if TextRead(f) {
      ReadIsExpected(lim, f);
    } else if HasPath(lim, f) && RealFile(lim, f) == ExpectedFile(lim, f) {
      RealIsGiven(lim, f);
      if f.body.TextBody? { ReadableIsAll(f.body.hunks); }
      WhoHasPath(lim, f);
    }
  }

  // ---- a list of printed files --------------------------------------------------------------------------

  /** The files that have a path, as they are given, in order. */
  function RealFiles(lim: Limits, files: seq<FileSpec>): (r: seq<FileDiff>)
    ensures |r| <= |files|
  {
    if files == [] then []
    else (if HasPath(lim, files[0]) then [RealFile(lim, files[0])] else []) + RealFiles(lim, files[1..])
  }

  /** How many have none. */
  function Unnamed(lim: Limits, files: seq<FileSpec>): (n: nat)
    ensures n == |files| - |RealFiles(lim, files)|
  {
    if files == [] then 0 else (if HasPath(lim, files[0]) then 0 else 1) + Unnamed(lim, files[1..])
  }

  function Room(lim: Limits, s: State): nat { if |s.files| < lim.files then lim.files - |s.files| else 0 }

  /** What a parser that has `s` behind it ends with: every file counted, those without a path as
    * unreadable, the others given in order within the limit. */
  function Ended(lim: Limits, s: State, files: seq<FileSpec>): State {
    var found := RealFiles(lim, files);
    s.(files := s.files + found[..Min(|found|, Room(lim, s))], total := s.total + |files|,
       unreadable := s.unreadable + Unnamed(lim, files))
  }

  lemma FlushGives(lim: Limits, s: State, f: FileSpec)
    requires s.cur.None?
    ensures Flush(lim, s.(cur := Some(RealPending(lim, f)))) == Ended(lim, s, [f])
  {
    hide RealPending, PathOf, ChangeOf;
    var found := RealFiles(lim, [f]);
    assert found == if HasPath(lim, f) then [RealFile(lim, f)] else [];
    assert [f][1..] == [] && Unnamed(lim, [f]) == 1 - |found|;
    assert found[..|found|] == found && found[..0] == [] && s.files + [] == s.files;
  }

  lemma EndedTwo(lim: Limits, s: State, f: FileSpec, files: seq<FileSpec>)
    ensures Ended(lim, Ended(lim, s, [f]), files) == Ended(lim, s, [f] + files)
  {
    hide HasPath, RealFile;
    assert ([f] + files)[1..] == files && [f][1..] == [];
    var a, b := RealFiles(lim, [f]), RealFiles(lim, files);
    assert RealFiles(lim, [f] + files) == a + b;
    TakeTwo(s.files, a, b, lim.files);
  }

  /** Filling what room is left by one list and then by another. */
  lemma TakeTwo(s: seq<FileDiff>, a: seq<FileDiff>, b: seq<FileDiff>, limit: nat)
    ensures var mid := s + a[..Min(|a|, Max(limit - |s|, 0))];
      mid + b[..Min(|b|, Max(limit - |mid|, 0))] == s + (a + b)[..Min(|a + b|, Max(limit - |s|, 0))]
  {
    var n := Max(limit - |s|, 0);
    if n <= |a| {
      assert (a + b)[..n] == a[..n];
    } else {
      assert a[..|a|] == a;
      assert (a + b)[..Min(|a + b|, n)] == a + b[..Min(|b|, n - |a|)];
    }
  }

  /** From a state with nothing owed, every printed file is counted and the readable ones given in
    * order within the limit, whatever names, headings and content are. */
  lemma {:induction false} DiffParses(lim: Limits, s: State, files: seq<FileSpec>)
    requires Between(s) && forall k :: 0 <= k < |files| ==> Printable(files[k])
    ensures Flush(lim, ParseLines(lim, s, DiffLines(files))) == Ended(lim, Flush(lim, s), files)
    decreases |files|
  {
    hide Flush, FileLines, RealPending, Printable, Ended;
    FlushBetween(lim, s);
    if files == [] {
      NothingEnded(lim, Flush(lim, s));
    } else {
      var next := ParseLines(lim, s, FileLines(files[0]));
      ParseTwo(lim, s, FileLines(files[0]), DiffLines(files[1..]));
      FileParses(lim, s, files[0]);
      FlushGives(lim, Flush(lim, s), files[0]);
      DiffParses(lim, next, files[1..]);
      EndedTwo(lim, Flush(lim, s), files[0], files[1..]);
      assert [files[0]] + files[1..] == files;
    }
  }

  lemma NothingEnded(lim: Limits, s: State)
    ensures Ended(lim, s, []) == s
  {
    assert s.files + [] == s.files;
  }

  lemma {:induction false} AllNamed(lim: Limits, files: seq<FileSpec>)
    ensures |RealFiles(lim, files)| == |files| <==> forall k :: 0 <= k < |files| ==> HasPath(lim, files[k])
    ensures |RealFiles(lim, files)| == |files| ==>
      forall k :: 0 <= k < |files| ==> HasPath(lim, files[k]) && RealFiles(lim, files)[k] == RealFile(lim, files[k])
    decreases |files|
  {
    hide HasPath, RealFile;
    if files != [] {
      AllNamed(lim, files[1..]);
      assert forall k :: 1 <= k < |files| ==> files[k] == files[1..][k - 1];
    }
  }

  // ---- from bytes to files ------------------------------------------------------------------------------------

  /** The printed lines hold no LF, and their header lines fit the line cap. */
  predicate LinesFit(cap: nat, f: FileSpec) {
    && cap >= 1
    && (forall k :: 0 <= k < |FileLines(f)| ==> LF !in FileLines(f)[k])
    && |DIFF_GIT + HeaderText(f.name, f.octal)| <= cap
    && (forall k :: 0 <= k < |ModeLines(f)| ==> |ModeLines(f)[k]| <= cap)
    && (forall k :: 0 <= k < |f.extra| ==> |f.extra[k]| <= cap)
    && (f.body.BinaryBody? ==> |BINARY + f.body.note| <= cap)
    && (f.body.TextBody? ==>
          && (forall k :: 0 <= k < 2 ==> |SideLines(f)[k]| <= cap)
          && forall k :: 0 <= k < |f.body.hunks| ==> |HunkLine(f.body.hunks[k])| <= cap)
  }

  /** The file with every content line cut to the cap: what the splitter hands over of it. */
  function CutContent(cap: nat, content: seq<ContentLine>): (r: seq<ContentLine>)
    requires cap >= 1
    ensures |r| == |content|
  {
    seq(|content|, k requires 0 <= k < |content| => content[k].(text := L.Capped(cap - 1, content[k].text)))
  }

  function CutHunks(cap: nat, hunks: seq<HunkSpec>): (r: seq<HunkSpec>)
    requires cap >= 1
    ensures |r| == |hunks|
  {
    seq(|hunks|, k requires 0 <= k < |hunks| => hunks[k].(content := CutContent(cap, hunks[k].content)))
  }

  function Cut(cap: nat, f: FileSpec): FileSpec
    requires cap >= 1
  {
    if f.body.TextBody? then f.(body := TextBody(CutHunks(cap, f.body.hunks))) else f
  }

  lemma CappedConcat(cap: nat, a: seq<seq<byte>>, b: seq<seq<byte>>)
    ensures L.CappedAll(cap, a + b) == L.CappedAll(cap, a) + L.CappedAll(cap, b)
  {
  }

  lemma CappedSame(cap: nat, a: seq<seq<byte>>)
    requires forall k :: 0 <= k < |a| ==> |a[k]| <= cap
    ensures L.CappedAll(cap, a) == a
  {
  }

  lemma {:induction false} CutContentLines(cap: nat, content: seq<ContentLine>)
    requires cap >= 1
    ensures L.CappedAll(cap, ContentLines(content)) == ContentLines(CutContent(cap, content))
    ensures Olds(CutContent(cap, content)) == Olds(content) && News(CutContent(cap, content)) == News(content)
    decreases |content|
  {
    if content != [] {
      var first, cut := content[0], CutContent(cap, content);
      CutContentLines(cap, content[1..]);
      assert cut[1..] == CutContent(cap, content[1..]);
      CappedConcat(cap, [ContentText(first)], ContentLines(content[1..]));
      assert L.Capped(cap, ContentText(first)) == ContentText(cut[0]);
      assert L.CappedAll(cap, [ContentText(first)]) == [ContentText(cut[0])];
    }
  }

  lemma {:induction false} CutHunksLines(cap: nat, hunks: seq<HunkSpec>)
    requires cap >= 1 && forall k :: 0 <= k < |hunks| ==> |HunkLine(hunks[k])| <= cap
    ensures L.CappedAll(cap, HunksLines(hunks)) == HunksLines(CutHunks(cap, hunks))
    decreases |hunks|
  {
    hide HunkLine, ContentLines, CutContent;
    if hunks != [] {
      var first, cut := hunks[0], CutHunks(cap, hunks);
      CutHunksLines(cap, hunks[1..]);
      assert cut[1..] == CutHunks(cap, hunks[1..]);
      SameHunkLine(first, cut[0]);
      CutContentLines(cap, first.content);
      CappedSame(cap, [HunkLine(first)]);
      CappedConcat(cap, [HunkLine(first)], ContentLines(first.content));
      CappedConcat(cap, HunkLines(first), HunksLines(hunks[1..]));
    }
  }

  lemma SameHunkLine(a: HunkSpec, b: HunkSpec)
    requires a.hunk == b.hunk && a.heading == b.heading
    ensures HunkLine(a) == HunkLine(b)
  {
  }

  /** Cutting a printed file to the cap is printing the file with its content cut. */
  lemma CutFileLines(cap: nat, f: FileSpec)
    requires LinesFit(cap, f)
    ensures L.CappedAll(cap, FileLines(f)) == FileLines(Cut(cap, f))
  {
    hide HeaderText, SideText, HunksLines, CutHunks, HunkLine;
    var first := [DIFF_GIT + HeaderText(f.name, f.octal)];
    CappedSame(cap, first);
    CappedSame(cap, ModeLines(f));
    CappedSame(cap, f.extra);
    CappedConcat(cap, first, ModeLines(f));
    CappedConcat(cap, first + ModeLines(f), f.extra);
    CappedConcat(cap, first + ModeLines(f) + f.extra, BodyLines(f));
    CutBodyLines(cap, f);
  }

  lemma CutBodyLines(cap: nat, f: FileSpec)
    requires LinesFit(cap, f)
    ensures L.CappedAll(cap, BodyLines(f)) == BodyLines(Cut(cap, f))
  {
    hide HeaderText, SideText, HunksLines, CutHunks, HunkLine;
    match f.body
    case NoBody => CappedSame(cap, []);
    case BinaryBody(note) => CappedSame(cap, [BINARY + note]);
    case TextBody(hunks) =>
      CappedSame(cap, SideLines(f));
      CappedConcat(cap, SideLines(f), HunksLines(hunks));
      CutHunksLines(cap, hunks);
  }

  function CutAll(cap: nat, files: seq<FileSpec>): (r: seq<FileSpec>)
    requires cap >= 1
    ensures |r| == |files|
  {
    seq(|files|, k requires 0 <= k < |files| => Cut(cap, files[k]))
  }

  lemma FitNoLf(cap: nat, f: FileSpec)
    requires LinesFit(cap, f)
    ensures forall k :: 0 <= k < |FileLines(f)| ==> LF !in FileLines(f)[k]
  {
  }

  lemma {:induction false} CutDiffLines(cap: nat, files: seq<FileSpec>)
    requires cap >= 1 && forall k :: 0 <= k < |files| ==> LinesFit(cap, files[k])
    ensures L.CappedAll(cap, DiffLines(files)) == DiffLines(CutAll(cap, files))
    ensures forall k :: 0 <= k < |DiffLines(files)| ==> LF !in DiffLines(files)[k]
    decreases |files|
  {
    hide Cut, FileLines, LinesFit, L.CappedAll;
    if files == [] {
      CappedSame(cap, []);
    } else {
      CutDiffLines(cap, files[1..]);
      CutFileLines(cap, files[0]);
      FitNoLf(cap, files[0]);
      CappedConcat(cap, FileLines(files[0]), DiffLines(files[1..]));
      assert CutAll(cap, files)[1..] == CutAll(cap, files[1..]);
    }
  }

  lemma CutCountsOk(cap: nat, h: HunkSpec)
    requires cap >= 1 && CountsOk(h)
    ensures CountsOk(h.(content := CutContent(cap, h.content)))
  {
    CutContentLines(cap, h.content);
  }

  lemma CutPrintable(cap: nat, f: FileSpec)
    requires cap >= 1 && Printable(f)
    ensures Printable(Cut(cap, f)) && (HeadingsRead(Cut(cap, f)) <==> HeadingsRead(f)) &&
      (TextRead(Cut(cap, f)) <==> TextRead(f))
  {
    hide CountsOk, Ignored, Utf8.Valid;
    if f.body.TextBody? {
      var hunks, cut := f.body.hunks, CutHunks(cap, f.body.hunks);
      forall k | 0 <= k < |hunks| ensures CountsOk(cut[k]) && cut[k].heading == hunks[k].heading {
        CutCountsOk(cap, hunks[k]);
      }
    }
  }

  lemma {:induction false} CutReadable(cap: nat, hunks: seq<HunkSpec>)
    requires cap >= 1
    ensures HunksOf(Readable(CutHunks(cap, hunks))) == HunksOf(Readable(hunks))
    decreases |hunks|
  {
    hide Utf8.Valid, CutContent;
    if hunks != [] {
      var cut, rest := CutHunks(cap, hunks), hunks[1..];
      assert cut[1..] == CutHunks(cap, rest) && cut[0].heading == hunks[0].heading && cut[0].hunk == hunks[0].hunk;
      CutReadable(cap, rest);
      if Utf8.Valid(hunks[0].heading) {
        assert HunksOf(Readable(cut)) == [cut[0].hunk] + HunksOf(Readable(cut[1..]));
        assert HunksOf(Readable(hunks)) == [hunks[0].hunk] + HunksOf(Readable(rest));
      } else {
        assert Readable(cut) == Readable(cut[1..]) && Readable(hunks) == Readable(rest);
      }
    }
  }

  /** Cutting the content changes nothing that is given. */
  lemma CutGiven(cap: nat, lim: Limits, f: FileSpec, d: FileDiff)
    requires cap >= 1 && Printable(f) && Given(lim, Cut(cap, f), d)
    ensures Given(lim, f, d)
  {
    hide Readable, HunksOf, CutContent, TextRead, Printable, Utf8.Valid;
    CutPrintable(cap, f);
    if f.body.TextBody? {
      CutReadable(cap, f.body.hunks);
      assert HunksOf(CutHunks(cap, f.body.hunks)) == HunksOf(f.body.hunks) by { SameHunks(cap, f.body.hunks); }
    }
  }

  lemma SameHunks(cap: nat, hunks: seq<HunkSpec>)
    requires cap >= 1
    ensures HunksOf(CutHunks(cap, hunks)) == HunksOf(hunks)
  {
  }

  /** What a file's record means after its content was cut to `cut`: it has a path if its name is
    * UTF-8, none if it is not and its headings are, and with one is given as `Given` says. */
  predicate Means(lim: Limits, f: FileSpec, cut: FileSpec) {
    && (Utf8.Valid(f.name) ==> HasPath(lim, cut))
    && (!Utf8.Valid(f.name) && HeadingsRead(f) ==> !HasPath(lim, cut))
    && (HasPath(lim, cut) ==> Given(lim, f, RealFile(lim, cut)))
  }

  lemma CutMeans(cap: nat, lim: Limits, f: FileSpec)
    requires cap >= 1 && Printable(f)
    ensures Means(lim, f, Cut(cap, f))
  {
    hide RealPending, Utf8.Valid, HeadingsRead, Printable, Given, CutHunks;
    var cut := Cut(cap, f);
    CutPrintable(cap, f);
    WhoHasPath(lim, cut);
    if HasPath(lim, cut) {
      RealIsGiven(lim, cut);
      CutGiven(cap, lim, f, RealFile(lim, cut));
    }
  }

  lemma CutExpected(cap: nat, lim: Limits, f: FileSpec)
    requires cap >= 1
    ensures ExpectedFile(lim, Cut(cap, f)) == ExpectedFile(lim, f)
    ensures Cut(cap, f).body.TextBody? <==> f.body.TextBody?
    ensures f.body.TextBody? ==> |Cut(cap, f).body.hunks| == |f.body.hunks|
  {
    hide HunksOf, CutContent;
    if f.body.TextBody? { SameHunks(cap, f.body.hunks); }
  }

  /** The files and their hunks are within the limits. */
  predicate WithinLimits(lim: Limits, files: seq<FileSpec>) {
    && |files| <= lim.files
    && forall k :: 0 <= k < |files| && files[k].body.TextBody? ==> |files[k].body.hunks| <= lim.hunksPerFile
  }

  lemma AllAsPrinted(lim: Limits, cap: nat, files: seq<FileSpec>)
    requires cap >= 1 && (forall k :: 0 <= k < |files| ==> Printable(files[k])) && WithinLimits(lim, files)
    ensures RealFiles(lim, CutAll(cap, files)) == ExpectedFiles(lim, files) <==>
      forall k :: 0 <= k < |files| ==> TextRead(files[k])
  {
    hide Printable, Cut, ExpectedFile, TextRead, HasPath, RealFile;
    var cut, all := CutAll(cap, files), ExpectedFiles(lim, files);
    AllNamed(lim, cut);
    forall k | 0 <= k < |files|
      ensures HasPath(lim, cut[k]) && RealFile(lim, cut[k]) == all[k] <==> TextRead(files[k])
    {
      CutPrintable(cap, files[k]);
      CutExpected(cap, lim, files[k]);
      GivenExactly(lim, cut[k]);
    }
    if RealFiles(lim, cut) == all {
      assert |RealFiles(lim, cut)| == |cut|;
    }
    if forall k :: 0 <= k < |files| ==> TextRead(files[k]) {
      assert forall k :: 0 <= k < |cut| ==> HasPath(lim, cut[k]);
      assert RealFiles(lim, cut) == all;
    }
  }

  /** Diff parse inverts diff print. For every list of printed files, any names, content and
    * headings, any chunking and either quoting: every file is counted; those that end without a
    * path are counted as unreadable, and nothing of them reaches another file; the others are
    * given in order within the limit. What each comes to is said exactly by its record, and means
    * what `Means` says. Within the limits all files come back as printed, path, kind of change
    * and hunks, if and only if every name, every heading and every note is UTF-8. */
  lemma ParseInvertsPrint(lim: Limits, cap: nat, files: seq<FileSpec>, chunks: seq<seq<byte>>)
    requires cap >= 1 && forall k :: 0 <= k < |files| ==> Printable(files[k]) && LinesFit(cap, files[k])
    requires L.Joined(chunks) == L.Written(DiffLines(files))
    ensures var end := Flush(lim, ParseLines(lim, Start, L.Delivered(cap, L.Joined(chunks))));
      var cut := CutAll(cap, files);
      var found := RealFiles(lim, cut);
      && end.total == |files| && end.unreadable == Unnamed(lim, cut)
      && end.files == found[..Min(|found|, lim.files)]
      && (forall k :: 0 <= k < |files| ==> Means(lim, files[k], cut[k]))
      && (WithinLimits(lim, files) ==>
            (end.files == ExpectedFiles(lim, files) <==> forall k :: 0 <= k < |files| ==> TextRead(files[k])))
  {
    hide *;
    var cut := CutAll(cap, files);
    CutDiffLines(cap, files);
    L.WrittenIsDelivered(cap, DiffLines(files));
    CutsMean(cap, lim, files);
    StartEnds(lim, cut);
    DiffParses(lim, Start, cut);
    if WithinLimits(lim, files) {
      AllAsPrinted(lim, cap, files);
      AllWithin(lim, files, RealFiles(lim, cut));
    }
  }

  lemma CutsMean(cap: nat, lim: Limits, files: seq<FileSpec>)
    requires cap >= 1 && forall k :: 0 <= k < |files| ==> Printable(files[k])
    ensures var cut := CutAll(cap, files);
      |cut| == |files| && forall k :: 0 <= k < |files| ==> Printable(cut[k]) && Means(lim, files[k], cut[k])
  {
    hide Printable, Cut, Means;
    forall k | 0 <= k < |files| ensures Printable(Cut(cap, files[k])) && Means(lim, files[k], Cut(cap, files[k])) {
      CutPrintable(cap, files[k]);
      CutMeans(cap, lim, files[k]);
    }
  }

  /** What a fresh parser ends with. */
  lemma StartEnds(lim: Limits, files: seq<FileSpec>)
    ensures Between(Start)
    ensures var end, found := Ended(lim, Flush(lim, Start), files), RealFiles(lim, files);
      && end.total == |files| && end.unreadable == Unnamed(lim, files)
      && end.files == found[..Min(|found|, lim.files)]
  {
    hide RealFiles, Unnamed;
    var found := RealFiles(lim, files);
    assert [] + found[..Min(|found|, lim.files)] == found[..Min(|found|, lim.files)];
  }

  lemma AllWithin(lim: Limits, files: seq<FileSpec>, found: seq<FileDiff>)
    requires WithinLimits(lim, files) && |found| <= |files|
    ensures found[..Min(|found|, lim.files)] == found
  {
  }

  // ---- texts that are not UTF-8 --------------------------------------------------------------------------

  /** A name that is not UTF-8, printed raw or quoted, with its headings read: one more file
    * counted, one more unreadable, and nothing else. */
  lemma UnreadableName(lim: Limits, s: State, f: FileSpec)
    requires Between(s) && Printable(f) && !Utf8.Valid(f.name) && HeadingsRead(f)
    ensures var before, t := Flush(lim, s), Flush(lim, ParseLines(lim, s, FileLines(f)));
      t == before.(total := before.total + 1, unreadable := before.unreadable + 1)
  {
    hide RealPending, FileLines, ParseLines, Utf8.Valid, Printable, HeadingsRead, PathOf;
    FileParses(lim, s, f);
    FlushBetween(lim, s);
    WhoHasPath(lim, f);
  }

  /** Within the limit a printed hunk is kept exactly when its heading is UTF-8. Git prints the
    * heading's bytes as the file has them, so a diff of a file in another encoding loses
    * hunks, and its content lines are read as headers. */
  lemma HunkKeptExactlyWhenHeadingIsUtf8(lim: Limits, s: State, h: HunkSpec)
    requires Between(s) && s.cur.Some? && CountsOk(h) && |s.cur.value.hunks| < lim.hunksPerFile
    ensures var t := ParseLines(lim, s, HunkLines(h));
      && t.cur.Some?
      && (Utf8.Valid(h.heading) <==> t.cur.value.hunks == s.cur.value.hunks + [h.hunk])
  {
    hide ParseLines, HunkLines, Utf8.Valid, CountsOk;
    HunkParsesEither(lim, s, h);
  }

  /** One such hunk: a line added under a heading with a Latin-1 letter. */
  lemma LatinHeadingLosesHunk(lim: Limits)
    requires lim.hunksPerFile >= 1
    ensures var h := LatinHunk([0x78]);
      var s := Start.(cur := Some(Blank.(header := Some([0x66]))));
      var t := ParseLines(lim, s, HunkLines(h));
      t.cur.Some? && t.cur.value.hunks != [h.hunk]
  {
    hide ParseLines, HunkLines;
    var h := LatinHunk([0x78]);
    LatinHeading();
    assert Olds(h.content[1..]) == 0 && News(h.content[1..]) == 0;
    HunkKeptExactlyWhenHeadingIsUtf8(lim, Start.(cur := Some(Blank.(header := Some([0x66])))), h);
    assert [] + [h.hunk] == [h.hunk];
  }

  /** A line added after line 1, under a heading that ends in an e acute of Latin-1. */
  function LatinHunk(added: seq<byte>): HunkSpec {
    HunkSpec(Hunk(1, 0, 2, 1), [0x63, 0x61, 0x66, 0xE9], [ContentLine(PLUS, added)])
  }

  lemma LatinHeading()
    ensures !Utf8.Valid([0x63, 0x61, 0x66, 0xE9])
  {
    var a, b: seq<byte> := [0x63, 0x61, 0x66], [0xE9];
    Utf8.ValidAfterAsciis(a, b);
    assert a + b == [0x63, 0x61, 0x66, 0xE9];
    assert b[..1] == b;
  }

  /** A changed file without a readable name, and one lost hunk whose added line says `+++ b/x`. */
  function StrayFile(): FileSpec {
    FileSpec([0xFF], Modified, [], TextBody([LatinHunk([PLUS, PLUS, 0x20, 0x62, 0x2F, 0x78])]), false)
  }

  lemma StrayFileIs()
    ensures !Utf8.Valid(StrayFile().name) && Printable(StrayFile())
  {
    var h := StrayFile().body.hunks[0];
    assert Olds(h.content[1..]) == 0 && News(h.content[1..]) == 0;
    var name := StrayFile().name;
    assert name[..1] == name;
  }

  lemma StraySides()
    ensures OldSide(StrayFile()) == None && NewSide(StrayFile()) == Some(Some([0x78]))
  {
    var h := StrayFile().body.hunks[0];
    var line := [PLUS, PLUS, PLUS, 0x20, 0x62, 0x2F, 0x78];
    LatinHeading();
    StrayFileIs();
    hide SideAfter, Utf8.Valid, Lost, ContentLines;
    LostLine(h, line);
    SideGiven(line);
  }

  /** A lost hunk can even name a file that has no readable name. */
  lemma LostLineNames(lim: Limits)
    ensures var f := StrayFile();
      !Utf8.Valid(f.name) && Printable(f) && HasPath(lim, f) && RealFile(lim, f).path == [0x78]
  {
    hide SideAfter, RealPending, Utf8.Valid, OldSide, NewSide, Printable;
    StrayFileIs();
    StraySides();
    WhoHasPath(lim, StrayFile());
    RealFields(lim, StrayFile());
  }

  lemma LostLine(h: HunkSpec, line: seq<byte>)
    requires !Utf8.Valid(h.heading) && |h.content| == 1 && ContentText(h.content[0]) == line
    ensures Lost([h]) == [line]
  {
    hide Utf8.Valid;
    assert [h][1..] == [] && h.content[1..] == [];
    assert ContentLines(h.content) == [line] + ContentLines([]);
  }

  lemma SideGiven(line: seq<byte>)
    requires line == [PLUS, PLUS, PLUS, 0x20, 0x62, 0x2F, 0x78]
    ensures SideAfter(NEW_MARK, B_SIDE, [line], None) == Some(Some([0x78]))
    ensures SideAfter(OLD_MARK, A_SIDE, [line], None) == None
  {
    Utf8.AsciiValid(line);
    hide Utf8.Valid;
    Strips(NEW_MARK, [0x62, 0x2F, 0x78]);
    assert line == NEW_MARK + [0x62, 0x2F, 0x78];
    Strips(B_SIDE, [0x78]);
    assert B_SIDE + [0x78] == [0x62, 0x2F, 0x78];
    NotPrefix(line, OLD_MARK);
    assert DEV_NULL[0] == 0x2F;
    hide StripPrefix;
    SideAfterOne(NEW_MARK, B_SIDE, line, None);
    SideAfterOne(OLD_MARK, A_SIDE, line, None);
  }
}
