/** The streaming diff parser.
  *
  * Content lines are counted off the hunk header, so they may look like anything, file
  * headers included.
  */
module DiffParser {
  import opened Base
  import Utf8
  import opened Decimal
  import opened DiffText
  import L = Lines

  const DIFF_GIT: seq<byte> := [0x64, 0x69, 0x66, 0x66, 0x20, 0x2D, 0x2D, 0x67, 0x69, 0x74, 0x20]  // "diff --git "
  // "new file mode"
  const NEW_FILE: seq<byte> := [0x6E, 0x65, 0x77, 0x20, 0x66, 0x69, 0x6C, 0x65, 0x20, 0x6D, 0x6F, 0x64, 0x65]
  // "deleted file mode"
  const DELETED_FILE: seq<byte> :=
    [0x64, 0x65, 0x6C, 0x65, 0x74, 0x65, 0x64, 0x20, 0x66, 0x69, 0x6C, 0x65, 0x20, 0x6D, 0x6F, 0x64, 0x65]
  const OLD_MARK: seq<byte> := [0x2D, 0x2D, 0x2D, 0x20]  // "--- "
  const NEW_MARK: seq<byte> := [0x2B, 0x2B, 0x2B, 0x20]  // "+++ "
  // "Binary files "
  const BINARY: seq<byte> := [0x42, 0x69, 0x6E, 0x61, 0x72, 0x79, 0x20, 0x66, 0x69, 0x6C, 0x65, 0x73, 0x20]
  // "GIT binary patch"
  const GIT_BINARY: seq<byte> :=
    [0x47, 0x49, 0x54, 0x20, 0x62, 0x69, 0x6E, 0x61, 0x72, 0x79, 0x20, 0x70, 0x61, 0x74, 0x63, 0x68]
  const HUNK_MARK: seq<byte> := [0x40, 0x40, 0x20]  // "@@ "

  datatype Change = Added | Modified | Deleted

  datatype FileDiff = FileDiff(path: Name, change: Change, binary: bool, hunks: seq<Hunk>, truncated: bool)

  datatype Limits = Limits(files: nat, hunksPerFile: nat)

  datatype Pending = Pending(
    header: Option<Name>,
    old': Option<Option<Name>>,
    new': Option<Option<Name>>,
    added: bool,
    deleted: bool,
    binary: bool,
    hunks: seq<Hunk>,
    truncated: bool)

  datatype State = State(
    files: seq<FileDiff>, total: nat, unreadable: nat, cur: Option<Pending>, oldLeft: nat, newLeft: nat)

  const Start: State := State([], 0, 0, None, 0, 0)

  // ---- one line ------------------------------------------------------------------------------

  datatype Kind = KNewFile | KDeleted | KOld | KNew | KBinary | KHunk
  datatype Header = Header(kind: Kind, rest: seq<byte>)

  /** The first header prefix the line has. */
  function Classify(line: seq<byte>): Option<Header> {
    if StripPrefix(line, NEW_FILE).Some? then Some(Header(KNewFile, StripPrefix(line, NEW_FILE).value))
    else if StripPrefix(line, DELETED_FILE).Some? then Some(Header(KDeleted, StripPrefix(line, DELETED_FILE).value))
    else if StripPrefix(line, OLD_MARK).Some? then Some(Header(KOld, StripPrefix(line, OLD_MARK).value))
    else if StripPrefix(line, NEW_MARK).Some? then Some(Header(KNew, StripPrefix(line, NEW_MARK).value))
    else if StripPrefix(line, BINARY).Some? then Some(Header(KBinary, StripPrefix(line, BINARY).value))
    else if StripPrefix(line, GIT_BINARY).Some? then Some(Header(KBinary, StripPrefix(line, GIT_BINARY).value))
    else if StripPrefix(line, HUNK_MARK).Some? then Some(Header(KHunk, StripPrefix(line, HUNK_MARK).value))
    else None
  }

  function AddHunk(lim: Limits, p: Pending, h: Hunk): Pending {
    if |p.hunks| < lim.hunksPerFile then p.(hunks := p.hunks + [h]) else p.(truncated := true)
  }

  function OnHeader(lim: Limits, s: State, p: Pending, h: Header): State {
    match h.kind
    case KNewFile => s.(cur := Some(p.(added := true)))
    case KDeleted => s.(cur := Some(p.(deleted := true)))
    case KOld => s.(cur := Some(p.(old' := Some(SidePath(h.rest, A_SIDE)))))
    case KNew => s.(cur := Some(p.(new' := Some(SidePath(h.rest, B_SIDE)))))
    case KBinary => s.(cur := Some(p.(binary := true)))
    case KHunk =>
      var hunk := ParseHunk(h.rest);
      if hunk.None? then s
      else s.(cur := Some(AddHunk(lim, p, hunk.value)), oldLeft := hunk.value.oldLen, newLeft := hunk.value.newLen)
  }

  function Flat(side: Option<Option<Name>>): Option<Name> { if side.Some? then side.value else None }
  function Or(a: Option<Name>, b: Option<Name>): Option<Name> { if a.Some? then a else b }

  function ChangeOf(p: Pending): Change {
    if p.added || p.old' == Some(None) then Added
    else if p.deleted || p.new' == Some(None) then Deleted
    else Modified
  }

  function PathOf(p: Pending): Option<Name> {
    if ChangeOf(p).Deleted? then Or(Flat(p.old'), p.header) else Or(Flat(p.new'), p.header)
  }

  /** The pending file is counted, and kept within the limit. */
  function Flush(lim: Limits, s: State): State {
    if s.cur.None? then s
    else
      var p, path := s.cur.value, PathOf(s.cur.value);
      var counted := s.(cur := None, total := s.total + 1);
      if path.None? then counted.(unreadable := s.unreadable + 1)
      else if |s.files| < lim.files then
        counted.(files := s.files + [FileDiff(path.value, ChangeOf(p), p.binary, p.hunks, p.truncated)])
      else counted
  }

  function Less(n: nat): nat { if n == 0 then 0 else n - 1 }

  /** A line of a hunk's content is only counted. */
  function OnContent(s: State, line: seq<byte>): State {
    if line == [] then s
    else if line[0] == MINUS then s.(oldLeft := Less(s.oldLeft))
    else if line[0] == PLUS then s.(newLeft := Less(s.newLeft))
    else if line[0] == SPACE then s.(oldLeft := Less(s.oldLeft), newLeft := Less(s.newLeft))
    else s
  }

  const Blank: Pending := Pending(None, None, None, false, false, false, [], false)

  function OpenFile(lim: Limits, s: State, rest: seq<byte>): State {
    Flush(lim, s).(cur := Some(Blank.(header := if Utf8.Valid(rest) then HeaderPath(rest) else None)))
  }

  function ParseLine(lim: Limits, s: State, line: seq<byte>): State {
    if s.oldLeft > 0 || s.newLeft > 0 then OnContent(s, line)
    else if StripPrefix(line, DIFF_GIT).Some? then OpenFile(lim, s, StripPrefix(line, DIFF_GIT).value)
    else if !Utf8.Valid(line) || s.cur.None? || Classify(line).None? then s
    else OnHeader(lim, s, s.cur.value, Classify(line).value)
  }

  function ParseLines(lim: Limits, s: State, lines: seq<seq<byte>>): State
    decreases |lines|
  {
    if lines == [] then s else ParseLines(lim, ParseLine(lim, s, lines[0]), lines[1..])
  }

  lemma {:induction false} ParseTwo(lim: Limits, s: State, a: seq<seq<byte>>, b: seq<seq<byte>>)
    ensures ParseLines(lim, s, a + b) == ParseLines(lim, ParseLines(lim, s, a), b)
    decreases |a|
  {
    hide ParseLine;
    if a == [] {
      assert a + b == b;
    } else {
      assert (a + b)[1..] == a[1..] + b;
      ParseTwo(lim, ParseLine(lim, s, a[0]), a[1..], b);
    }
  }

  lemma ParseOne(lim: Limits, s: State, line: seq<byte>)
    ensures ParseLines(lim, s, [line]) == ParseLine(lim, s, line)
  {
    hide ParseLine;
    assert [line][1..] == [];
    assert ParseLines(lim, ParseLine(lim, s, line), []) == ParseLine(lim, s, line);
  }

  // ---- the parser object -----------------------------------------------------------------------

  class Parser {
    const limits: Limits
    var files: seq<FileDiff>
    var total: nat
    var unreadable: nat
    var cur: Option<Pending>
    var oldLeft: nat
    var newLeft: nat

    function View(): State
      reads this
    {
      State(files, total, unreadable, cur, oldLeft, newLeft)
    }

    constructor (limits: Limits)
      ensures View() == Start && this.limits == limits
    {
      this.limits := limits;
      files, total, unreadable, cur, oldLeft, newLeft := [], 0, 0, None, 0, 0;
    }

    method FlushFile()
      modifies this
      ensures View() == Flush(limits, old(View()))
    {
      if cur.None? { return; }
      var p := cur.value;
      cur := None;
      total := total + 1;
      var path := PathOf(p);
      if path.None? {
        unreadable := unreadable + 1;
        return;
      }
      if |files| < limits.files {
        files := files + [FileDiff(path.value, ChangeOf(p), p.binary, p.hunks, p.truncated)];
      }
    }

    method Line(line: seq<byte>)
      modifies this
      ensures View() == ParseLine(limits, old(View()), line)
    {
      if oldLeft > 0 || newLeft > 0 {
        if line == [] { return; }
        if line[0] == MINUS || line[0] == SPACE { oldLeft := Less(oldLeft); }
        if line[0] == PLUS || line[0] == SPACE { newLeft := Less(newLeft); }
        return;
      }
      var rest := StripPrefix(line, DIFF_GIT);
      if rest.Some? {
        FlushFile();
        cur := Some(Blank.(header := if Utf8.Valid(rest.value) then HeaderPath(rest.value) else None));
        return;
      }
      if !Utf8.Valid(line) || cur.None? { return; }
      var header := Classify(line);
      if header.None? { return; }
      HeaderLine(header.value);
    }

    method HeaderLine(h: Header)
      requires cur.Some?
      modifies this
      ensures View() == OnHeader(limits, old(View()), old(cur).value, h)
    {
      var p := cur.value;
      match h.kind {
        case KNewFile => cur := Some(p.(added := true));
        case KDeleted => cur := Some(p.(deleted := true));
        case KOld => cur := Some(p.(old' := Some(SidePath(h.rest, A_SIDE))));
        case KNew => cur := Some(p.(new' := Some(SidePath(h.rest, B_SIDE))));
        case KBinary => cur := Some(p.(binary := true));
        case KHunk =>
          var hunk := ParseHunk(h.rest);
          if hunk.None? { return; }
          oldLeft, newLeft := hunk.value.oldLen, hunk.value.newLen;
          cur := Some(AddHunk(limits, p, hunk.value));
      }
    }
  }

  /** Split the chunks into capped lines and parse them. */
  method ParseDiff(limits: Limits, cap: nat, chunks: seq<seq<byte>>)
    returns (files: seq<FileDiff>, total: nat, unreadable: nat)
    ensures var end := Flush(limits, ParseLines(limits, Start, L.Delivered(cap, L.Joined(chunks))));
      files == end.files && total == end.total && unreadable == end.unreadable
  {
    var lines := L.SplitAll(cap, chunks);
    var parser := new Parser(limits);
    for k := 0 to |lines|
      invariant fresh(parser) && parser.limits == limits && parser.View() == ParseLines(limits, Start, lines[..k])
    {
      assert lines[..k + 1] == lines[..k] + [lines[k]];
      ParseTwo(limits, Start, lines[..k], [lines[k]]);
      ParseOne(limits, ParseLines(limits, Start, lines[..k]), lines[k]);
      parser.Line(lines[k]);
    }
    assert lines[..|lines|] == lines;
    parser.FlushFile();
    files, total, unreadable := parser.files, parser.total, parser.unreadable;
  }
}
