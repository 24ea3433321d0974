/** Reading `git cat-file --batch` output as it arrives. */
module BatchReader {
  import opened Base
  import opened Decimal
  import L = Lines

  // The reader is specified one byte at a time, which makes it independent of chunks by
  // construction; that the bulk operations agree with it is the proof.

  const HEADER_LIMIT: nat := 4096
  const BLOB: seq<byte> := [0x62, 0x6C, 0x6F, 0x62]
  const MISSING: seq<byte> := [0x6D, 0x69, 0x73, 0x73, 0x69, 0x6E, 0x67]

  type Object = Option<seq<byte>>

  // ---- headers --------------------------------------------------------------------------

  /** The index after the last space; zero when there is none. */
  function AfterLastSpace(s: seq<byte>): (i: nat)
    ensures i <= |s| && (i > 0 ==> s[i - 1] == SPACE) && forall k :: i <= k < |s| ==> s[k] != SPACE
  {
    if s == [] then 0 else if s[|s| - 1] == SPACE then |s| else AfterLastSpace(s[..|s| - 1])
  }

  lemma AfterLastSpaceIs(s: seq<byte>, i: nat)
    requires i <= |s| && (i > 0 ==> s[i - 1] == SPACE) && forall k :: i <= k < |s| ==> s[k] != SPACE
    ensures AfterLastSpace(s) == i
  {
  }

  datatype Header = Content(size: nat, blob: bool) | NoContent

  /** The header's last two space-separated words: a kind and a size. */
  function ParseHeader(h: seq<byte>): Header {
    var i := AfterLastSpace(h);
    var size := ParseDec(h[i..], USIZE_MAX);
    if i == 0 || size.None? then NoContent
    else
      var front := h[..i - 1];
      Content(size.value, front[AfterLastSpace(front)..] == BLOB)
  }

  // ---- the reader, a byte at a time ---------------------------------------------------------

  datatype Reader = Reader(head: seq<byte>, left: nat, body: Object, done: seq<Object>)

  const Fresh: Reader := Reader([], 0, None, [])

  /** A header is complete. */
  function OnHeader(cap: nat, r: Reader, h: seq<byte>): Reader {
    match ParseHeader(h)
    case Content(size, blob) =>
      r.(head := [], left := size + 1, body := if blob && size <= cap then Some([]) else None)
    case NoContent => r.(head := [], done := r.done + [None])
  }

  function DropLast(b: Object): Object {
    if b.Some? && b.value != [] then Some(b.value[..|b.value| - 1]) else b
  }

  /** Some bytes of the content: at its end, its trailing LF goes and it is done. */
  function OnBody(r: Reader, part: seq<byte>): Reader
    requires |part| <= r.left
  {
    var body := if r.body.Some? then Some(r.body.value + part) else None;
    if |part| == r.left then Reader(r.head, 0, None, r.done + [DropLast(body)])
    else r.(left := r.left - |part|, body := body)
  }

  function OnByte(cap: nat, r: Reader, b: byte): Reader {
    if r.left > 0 then OnBody(r, [b])
    else if b == LF then OnHeader(cap, r, r.head)
    else r.(head := r.head + [b])
  }

  function OnBytes(cap: nat, r: Reader, s: seq<byte>): Reader
    decreases |s|
  {
    if s == [] then r else OnBytes(cap, OnByte(cap, r, s[0]), s[1..])
  }

  lemma {:induction false} OnTwo(cap: nat, r: Reader, a: seq<byte>, b: seq<byte>)
    ensures OnBytes(cap, r, a + b) == OnBytes(cap, OnBytes(cap, r, a), b)
    decreases |a|
  {
    if a == [] {
      assert a + b == b;
    } else {
      assert (a + b)[1..] == a[1..] + b;
      OnTwo(cap, OnByte(cap, r, a[0]), a[1..], b);
    }
  }

  /** Content bytes taken at once. */
  lemma {:induction false} BodyAtOnce(cap: nat, r: Reader, part: seq<byte>)
    requires 0 < |part| <= r.left
    ensures OnBytes(cap, r, part) == OnBody(r, part)
    decreases |part|
  {
    var next := OnByte(cap, r, part[0]);
    if |part| == 1 {
      assert part == [part[0]] && part[1..] == [];
      assert OnBytes(cap, next, []) == next;
    } else {
      BodyAtOnce(cap, next, part[1..]);
      assert r.body.Some? ==> r.body.value + [part[0]] + part[1..] == r.body.value + part;
    }
  }

  /** Header bytes taken at once. */
  lemma {:induction false} HeadAtOnce(cap: nat, r: Reader, part: seq<byte>)
    requires r.left == 0 && LF !in part
    ensures OnBytes(cap, r, part) == r.(head := r.head + part)
    decreases |part|
  {
    if part == [] {
      assert r.head + part == r.head;
    } else {
      HeadAtOnce(cap, r.(head := r.head + [part[0]]), part[1..]);
      assert r.head + [part[0]] + part[1..] == r.head + part;
    }
  }

  lemma LineAtOnce(cap: nat, r: Reader, part: seq<byte>)
    requires r.left == 0 && LF !in part
    ensures OnBytes(cap, r, part + [LF]) == OnHeader(cap, r, r.head + part)
  {
    OnTwo(cap, r, part, [LF]);
    HeadAtOnce(cap, r, part);
    var waiting := r.(head := r.head + part);
    assert [LF][1..] == [];
    assert OnBytes(cap, waiting, [LF]) == OnBytes(cap, OnByte(cap, waiting, LF), []);
    assert OnHeader(cap, waiting, waiting.head) == OnHeader(cap, r, waiting.head);
  }

  // ---- the reader as it runs -------------------------------------------------------------------

  class Batch {
    const cap: nat
    var head: seq<byte>
    var left: nat
    var body: Object
    var done: seq<Object>

    function View(): Reader
      reads this
    {
      Reader(head, left, body, done)
    }

    ghost predicate Valid()
      reads this
    {
      |head| <= HEADER_LIMIT && (left > 0 ==> head == [])
    }

    constructor (cap: nat)
      ensures Valid() && this.cap == cap && View() == Fresh
    {
      this.cap := cap;
      head, left, body, done := [], 0, None, [];
    }

    method TakeBody(part: seq<byte>)
      requires Valid() && 0 < |part| <= left
      modifies this
      ensures Valid() && View() == OnBody(old(View()), part)
    {
      if body.Some? { body := Some(body.value + part); }
      left := left - |part|;
      if left == 0 {
        done := done + [DropLast(body)];
        body := None;
      }
    }

    method TakeHeader(part: seq<byte>)
      requires Valid() && left == 0
      modifies this
      ensures Valid() && View() == OnHeader(cap, old(View()), old(head) + part)
    {
      var header := ParseHeader(head + part);
      head := [];
      match header {
        case Content(size, blob) =>
          left := size + 1;
          body := if blob && size <= cap then Some([]) else None;
        case NoContent => done := done + [None];
      }
    }

    /** Feed one chunk. It fails exactly when it ends in a header past the limit. */
    method Feed(chunk: seq<byte>) returns (ok: bool)
      requires Valid()
      modifies this
      ensures ok <==> |OnBytes(cap, old(View()), chunk).head| <= HEADER_LIMIT
      ensures ok ==> Valid() && View() == OnBytes(cap, old(View()), chunk)
    {
      hide OnBytes, OnHeader, OnBody;
      var rest := chunk;
      NoBytes(cap);
      while rest != []
        invariant Valid() && OnBytes(cap, View(), rest) == OnBytes(cap, old(View()), chunk)
        decreases |rest|
      {
        ghost var r := View();
        if left > 0 {
          var n := Min(left, |rest|);
          Splits(cap, r, rest, n);
          BodyAtOnce(cap, r, rest[..n]);
          TakeBody(rest[..n]);
          rest := rest[n..];
          continue;
        }
        var i := L.FirstLf(rest);
        if i == |rest| {
          HeadAtOnce(cap, r, rest);
          if |head| + |rest| > HEADER_LIMIT { return false; }
          head := head + rest;
          return true;
        }
        Splits(cap, r, rest, i + 1);
        assert rest[..i + 1] == rest[..i] + [LF];
        LineAtOnce(cap, r, rest[..i]);
        TakeHeader(rest[..i]);
        rest := rest[i + 1..];
      }
      ok := true;
    }
  }

  lemma NoBytes(cap: nat) ensures forall r :: OnBytes(cap, r, []) == r {}

  lemma Splits(cap: nat, r: Reader, s: seq<byte>, n: nat)
    requires n <= |s|
    ensures OnBytes(cap, r, s) == OnBytes(cap, OnBytes(cap, r, s[..n]), s[n..])
  {
    assert s == s[..n] + s[n..];
    OnTwo(cap, r, s[..n], s[n..]);
  }

  // ---- what Git replies ---------------------------------------------------------------------------

  datatype Reply = Found(oid: seq<byte>, kind: seq<byte>, content: seq<byte>) | Absent(name: seq<byte>)

  function HeaderOf(reply: Reply): seq<byte> {
    match reply
    case Found(oid, kind, content) => oid + [SPACE] + kind + [SPACE] + Dec(|content|)
    case Absent(name) => name + [SPACE] + MISSING
  }

  function ReplyBytes(reply: Reply): seq<byte> {
    match reply
    case Found(_, _, content) => HeaderOf(reply) + [LF] + content + [LF]
    case Absent(_) => HeaderOf(reply) + [LF]
  }

  predicate WellFormed(reply: Reply) {
    && LF !in HeaderOf(reply) && |HeaderOf(reply)| <= HEADER_LIMIT
    && (reply.Found? ==> SPACE !in reply.kind && |reply.content| <= USIZE_MAX)
  }

  /** What the caller is handed: a blob's bytes within the cap. */
  function Expected(cap: nat, reply: Reply): Object {
    if reply.Found? && reply.kind == BLOB && |reply.content| <= cap then Some(reply.content) else None
  }

  lemma LastWord(front: seq<byte>, word: seq<byte>)
    requires SPACE !in word
    ensures var h := front + [SPACE] + word;
      AfterLastSpace(h) == |front| + 1 && h[|front| + 1..] == word && h[..|front|] == front
  {
    var h := front + [SPACE] + word;
    assert forall k :: |front| + 1 <= k < |h| ==> h[k] == word[k - |front| - 1];
    AfterLastSpaceIs(h, |front| + 1);
  }

  lemma WordsParse(front: seq<byte>, kind: seq<byte>, size: seq<byte>, n: nat)
    requires SPACE !in kind && SPACE !in size && ParseDec(size, USIZE_MAX) == Some(n)
    ensures ParseHeader(front + [SPACE] + kind + [SPACE] + size) == Content(n, kind == BLOB)
  {
    LastWord(front + [SPACE] + kind, size);
    LastWord(front, kind);
  }

  lemma FoundParses(front: seq<byte>, kind: seq<byte>, n: nat)
    requires SPACE !in kind && n <= USIZE_MAX
    ensures ParseHeader(front + [SPACE] + kind + [SPACE] + Dec(n)) == Content(n, kind == BLOB)
  {
    DecParses(n, USIZE_MAX);
    WordsParse(front, kind, Dec(n), n);
  }

  lemma AbsentParses(name: seq<byte>)
    ensures ParseHeader(name + [SPACE] + MISSING) == NoContent
  {
    LastWord(name, MISSING);
    assert !Digit(MISSING[0]);
  }

  lemma HeaderParses(reply: Reply)
    requires WellFormed(reply)
    ensures ParseHeader(HeaderOf(reply)) ==
      if reply.Found? then Content(|reply.content|, reply.kind == BLOB) else NoContent
  {
    match reply
    case Found(oid, kind, content) => FoundParses(oid, kind, |content|);
    case Absent(name) => AbsentParses(name);
  }

  /** A reader with nothing pending. */
  predicate Idle(r: Reader) { r.head == [] && r.left == 0 && r.body == None }

  /** The reader after a reply's header. */
  function Started(cap: nat, r: Reader, reply: Reply): Reader {
    if reply.Found?
    then Reader([], |reply.content| + 1, if reply.kind == BLOB && |reply.content| <= cap then Some([])
      else None, r.done)
    else r.(done := r.done + [None])
  }

  lemma HeaderRead(cap: nat, r: Reader, reply: Reply)
    requires WellFormed(reply) && Idle(r)
    ensures OnBytes(cap, r, HeaderOf(reply) + [LF]) == Started(cap, r, reply)
  {
    HeaderParses(reply);
    LineAtOnce(cap, r, HeaderOf(reply));
    assert r.head + HeaderOf(reply) == HeaderOf(reply);
  }

  lemma ContentRead(cap: nat, r: Reader, reply: Reply)
    requires WellFormed(reply) && Idle(r) && reply.Found?
    ensures OnBytes(cap, Started(cap, r, reply), reply.content + [LF]) == r.(done := r.done + [Expected(cap, reply)])
  {
    var c, started := reply.content, Started(cap, r, reply);
    BodyAtOnce(cap, started, c + [LF]);
    assert [] + (c + [LF]) == c + [LF] && (c + [LF])[..|c|] == c;
  }

  lemma ReplyRead(cap: nat, r: Reader, reply: Reply)
    requires WellFormed(reply) && Idle(r)
    ensures OnBytes(cap, r, ReplyBytes(reply)) == r.(done := r.done + [Expected(cap, reply)])
  {
    HeaderRead(cap, r, reply);
    if reply.Found? {
      var h, c := HeaderOf(reply), reply.content;
      assert ReplyBytes(reply) == (h + [LF]) + (c + [LF]);
      OnTwo(cap, r, h + [LF], c + [LF]);
      ContentRead(cap, r, reply);
    }
  }

  function Stream(replies: seq<Reply>): seq<byte> {
    if replies == [] then [] else ReplyBytes(replies[0]) + Stream(replies[1..])
  }

  function ExpectedAll(cap: nat, replies: seq<Reply>): (r: seq<Object>)
    ensures |r| == |replies|
  {
    seq(|replies|, k requires 0 <= k < |replies| => Expected(cap, replies[k]))
  }

  /** The reader yields each reply's object, in order. */
  lemma {:induction false} StreamRead(cap: nat, r: Reader, replies: seq<Reply>)
    requires Idle(r) && forall k :: 0 <= k < |replies| ==> WellFormed(replies[k])
    ensures OnBytes(cap, r, Stream(replies)) == r.(done := r.done + ExpectedAll(cap, replies))
    decreases |replies|
  {
    hide OnBytes, ReplyBytes, Expected, WellFormed;
    NoBytes(cap);
    if replies == [] {
      assert r.done + ExpectedAll(cap, replies) == r.done;
    } else {
      OnTwo(cap, r, ReplyBytes(replies[0]), Stream(replies[1..]));
      ReplyRead(cap, r, replies[0]);
      var next := r.(done := r.done + [Expected(cap, replies[0])]);
      StreamRead(cap, next, replies[1..]);
      assert next.done + ExpectedAll(cap, replies[1..]) == r.done + ExpectedAll(cap, replies);
    }
  }

  /** At no cut of a well-formed stream is the pending header past the limit, so no chunking of
    * it fails. */
  lemma {:induction false} NoCutFails(cap: nat, r: Reader, replies: seq<Reply>, n: nat)
    requires Idle(r) && forall k :: 0 <= k < |replies| ==> WellFormed(replies[k])
    requires n <= |Stream(replies)|
    ensures |OnBytes(cap, r, Stream(replies)[..n]).head| <= HEADER_LIMIT
    decreases |replies|
  {
    if replies == [] {
      assert Stream(replies)[..n] == [];
    } else {
      var first, rest := ReplyBytes(replies[0]), Stream(replies[1..]);
      if n <= |first| {
        assert Stream(replies)[..n] == first[..n];
        CutInReply(cap, r, replies[0], n);
      } else {
        assert Stream(replies)[..n] == first + rest[..n - |first|];
        OnTwo(cap, r, first, rest[..n - |first|]);
        ReplyRead(cap, r, replies[0]);
        NoCutFails(cap, r.(done := r.done + [Expected(cap, replies[0])]), replies[1..], n - |first|);
      }
    }
  }

  lemma CutInReply(cap: nat, r: Reader, reply: Reply, n: nat)
    requires Idle(r) && WellFormed(reply) && n <= |ReplyBytes(reply)|
    ensures |OnBytes(cap, r, ReplyBytes(reply)[..n]).head| <= HEADER_LIMIT
  {
    var h, b := HeaderOf(reply), ReplyBytes(reply);
    if n <= |h| {
      assert b[..n] == h[..n];
      HeadAtOnce(cap, r, h[..n]);
    } else {
      HeaderRead(cap, r, reply);
      var started, part := Started(cap, r, reply), b[|h| + 1..n];
      assert b[..n] == (h + [LF]) + part;
      OnTwo(cap, r, h + [LF], part);
      if part != [] {
        BodyAtOnce(cap, started, part);
      }
    }
  }

  // ---- handing objects to the caller -------------------------------------------------------------

  /** The results already handed over do not matter to the reader. */
  lemma {:induction false} DoneAppends(cap: nat, r: Reader, s: seq<byte>)
    ensures OnBytes(cap, r, s) ==
      var clean := OnBytes(cap, r.(done := []), s);
      clean.(done := r.done + clean.done)
    decreases |s|
  {
    if s == [] {
      assert r.done + [] == r.done;
    } else {
      var a, b := OnByte(cap, r, s[0]), OnByte(cap, r.(done := []), s[0]);
      DoneAppends(cap, a, s[1..]);
      DoneAppends(cap, b, s[1..]);
      assert a.(done := []) == b.(done := []);
      assert a.done == r.done + b.done;
      var clean := OnBytes(cap, a.(done := []), s[1..]);
      assert r.done + b.done + clean.done == r.done + (b.done + clean.done);
    }
  }

  predicate Askable(name: seq<byte>) { LF !in name }

  /** The indices before `n` of the names that can be asked for, and of those that cannot. */
  function Picked(objects: seq<seq<byte>>, asked: bool, n: nat): (r: seq<nat>)
    requires n <= |objects|
    ensures forall i :: i in r <==> 0 <= i < n && Askable(objects[i]) == asked
    ensures forall j, k :: 0 <= j < k < |r| ==> r[j] < r[k]
  {
    if n == 0 then []
    else
      var init := Picked(objects, asked, n - 1);
      assert forall k :: 0 <= k < |init| ==> init[k] in init;
      if Askable(objects[n - 1]) == asked then init + [n - 1] else init
  }

  datatype Call = Call(index: nat, blob: Object)

  /** The calls for names that cannot be asked: nothing for each. */
  function Refused(skipped: seq<nat>): (r: seq<Call>)
    ensures |r| == |skipped| && forall k :: 0 <= k < |r| ==> r[k] == Call(skipped[k], None)
  {
    if skipped == [] then [] else Refused(skipped[..|skipped| - 1]) + [Call(skipped[|skipped| - 1], None)]
  }

  /** The first `n` calls for asked names: the object that came for each, or nothing. */
  function Answered(asked: seq<nat>, done: seq<Object>, n: nat): (r: seq<Call>)
    requires n <= |asked|
    ensures |r| == n && forall k :: 0 <= k < n ==> r[k] == Call(asked[k], if k < |done| then done[k] else None)
  {
    if n == 0 then []
    else Answered(asked, done, n - 1) + [Call(asked[n - 1], if n - 1 < |done| then done[n - 1] else None)]
  }

  /** The calls a successful run makes. */
  function Calls(objects: seq<seq<byte>>, done: seq<Object>): (r: seq<Call>)
    ensures |r| == |Picked(objects, false, |objects|)| + |Picked(objects, true, |objects|)|
  {
    var asked := Picked(objects, true, |objects|);
    Refused(Picked(objects, false, |objects|)) + Answered(asked, done, |asked|)
  }

  lemma AnsweredStable(asked: seq<nat>, done: seq<Object>, more: seq<Object>, n: nat)
    requires n <= |asked| && n <= |done|
    ensures Answered(asked, done + more, n) == Answered(asked, done, n)
  {
  }

  /** Hand the drained objects to the asked names in turn; extra ones are dropped. */
  method HandOver(
    asked: seq<nat>, ghost before: seq<Object>, drained: seq<Object>, next: nat, calls: seq<Call>,
    ghost first: seq<Call>)
    returns (next': nat, calls': seq<Call>)
    requires next == Min(|asked|, |before|) && calls == first + Answered(asked, before, next)
    ensures next' == Min(|asked|, |before + drained|) && calls' == first + Answered(asked, before + drained, next')
  {
    next', calls' := next, calls;
    AnsweredStable(asked, before, drained, next);
    for j := 0 to |drained|
      invariant next' == Min(|asked|, |before| + j)
      invariant calls' == first + Answered(asked, before + drained, next')
    {
      if next' < |asked| {
        calls' := calls' + [Call(asked[next'], drained[j])];
        next' := next' + 1;
      }
    }
  }

  /** Feed the chunks, handing objects over as they complete. */
  method ReadChunks(asked: seq<nat>, cap: nat, chunks: seq<seq<byte>>, first: seq<Call>)
    returns (ok: bool, next: nat, calls: seq<Call>)
    ensures ok ==>
      var read := OnBytes(cap, Fresh, L.Joined(chunks));
      next == Min(|asked|, |read.done|) && calls == first + Answered(asked, read.done, next)
    ensures ok <==> forall k :: 0 < k <= |chunks| ==> |OnBytes(cap, Fresh, L.Joined(chunks[..k])).head| <= HEADER_LIMIT
  {
    hide OnBytes, L.Joined;
    var reader := new Batch(cap);
    next, calls := 0, first;
    ghost var read := Fresh;
    NothingRead(cap, chunks);
    for k := 0 to |chunks|
      invariant reader.Valid() && reader.cap == cap && fresh(reader)
      invariant read == OnBytes(cap, Fresh, L.Joined(chunks[..k])) && reader.View() == read.(done := [])
      invariant next == Min(|asked|, |read.done|) && calls == first + Answered(asked, read.done, next)
      invariant forall j :: 0 < j <= k ==> |OnBytes(cap, Fresh, L.Joined(chunks[..j])).head| <= HEADER_LIMIT
    {
      OneMoreChunk(cap, chunks, k);
      DoneAppends(cap, read, chunks[k]);
      var fed := reader.Feed(chunks[k]);
      if !fed { return false, next, calls; }
      var drained := reader.done;
      reader.done := [];
      next, calls := HandOver(asked, read.done, drained, next, calls, first);
      read := OnBytes(cap, read, chunks[k]);
    }
    assert chunks[..|chunks|] == chunks;
    ok := true;
  }

  lemma NothingRead(cap: nat, chunks: seq<seq<byte>>)
    ensures OnBytes(cap, Fresh, L.Joined(chunks[..0])) == Fresh
  {
  }

  lemma OneMoreChunk(cap: nat, chunks: seq<seq<byte>>, k: nat)
    requires k < |chunks|
    ensures OnBytes(cap, Fresh, L.Joined(chunks[..k + 1]))
      == OnBytes(cap, OnBytes(cap, Fresh, L.Joined(chunks[..k])), chunks[k])
  {
    assert chunks[..k + 1][..k] == chunks[..k];
    OnTwo(cap, Fresh, L.Joined(chunks[..k]), chunks[k]);
  }

  method RefuseAll(skipped: seq<nat>) returns (calls: seq<Call>)
    ensures calls == Refused(skipped)
  {
    calls := [];
    for k := 0 to |skipped|
      invariant |calls| == k && forall j :: 0 <= j < k ==> calls[j] == Call(skipped[j], None)
    {
      calls := calls + [Call(skipped[k], None)];
    }
  }

  /** Nothing came for the asked names left over. */
  method AnswerRest(asked: seq<nat>, ghost done: seq<Object>, next: nat, calls: seq<Call>, ghost first: seq<Call>)
    returns (calls': seq<Call>)
    requires next == Min(|asked|, |done|) && calls == first + Answered(asked, done, next)
    ensures calls' == first + Answered(asked, done, |asked|)
  {
    calls' := calls;
    for k := next to |asked|
      invariant calls' == first + Answered(asked, done, k)
    {
      calls' := calls' + [Call(asked[k], None)];
    }
  }

  /** Nothing is asked, or no chunk ends in a header past the limit and the child either ended
    * well or had answered everything. */
  ghost predicate Succeeds(objects: seq<seq<byte>>, cap: nat, chunks: seq<seq<byte>>, exited: bool) {
    var asked := Picked(objects, true, |objects|);
    || asked == []
    || (&& (forall k :: 0 < k <= |chunks| ==> |OnBytes(cap, Fresh, L.Joined(chunks[..k])).head| <= HEADER_LIMIT)
        && (exited || |OnBytes(cap, Fresh, L.Joined(chunks)).done| >= |asked|))
  }

  /** Stream the objects through one child. `chunks` is what it prints, `exited` how it ended:
    * success is every call made, failure a header past the limit or a child that died early. */
  method ForEachObject(objects: seq<seq<byte>>, cap: nat, chunks: seq<seq<byte>>, exited: bool)
    returns (ok: bool, calls: seq<Call>)
    ensures ok ==> calls == Calls(objects, OnBytes(cap, Fresh, L.Joined(chunks)).done)
    ensures ok <==> Succeeds(objects, cap, chunks, exited)
  {
    var asked, skipped := Picked(objects, true, |objects|), Picked(objects, false, |objects|);
    calls := RefuseAll(skipped);
    if asked == [] {
      assert calls == Refused(skipped) + [];
      return true, calls;
    }
    var next;
    ok, next, calls := ReadChunks(asked, cap, chunks, calls);
    if !ok { return; }
    if !exited && next < |asked| { return false, calls; }
    calls := AnswerRest(asked, OnBytes(cap, Fresh, L.Joined(chunks)).done, next, calls, Refused(skipped));
  }

  predicate OnlyAt(calls: seq<Call>, i: nat, k: nat) {
    && k < |calls| && calls[k].index == i
    && forall j :: 0 <= j < |calls| && calls[j].index == i ==> j == k
  }

  /** A place in an ordered pick is the only one for its index. */
  lemma PickedOnce(objects: seq<seq<byte>>, asked: bool, j: nat, k: nat)
    requires var r := Picked(objects, asked, |objects|); j < |r| && k < |r| && r[j] == r[k]
    ensures j == k
  {
  }

  lemma CallIndex(objects: seq<seq<byte>>, done: seq<Object>, j: nat)
    requires j < |Calls(objects, done)|
    ensures var skipped, asked := Picked(objects, false, |objects|), Picked(objects, true, |objects|);
      var i := Calls(objects, done)[j].index;
      && |Calls(objects, done)| == |skipped| + |asked|
      && i == (if j < |skipped| then skipped[j] else asked[j - |skipped|])
      && i < |objects| && Askable(objects[i]) == (j >= |skipped|)
  {
    var skipped, asked := Picked(objects, false, |objects|), Picked(objects, true, |objects|);
    if j < |skipped| {
      assert skipped[j] in skipped;
    } else {
      assert asked[j - |skipped|] in asked;
    }
  }

  /** Once per index, whatever the child printed. */
  lemma OncePerIndex(objects: seq<seq<byte>>, done: seq<Object>, i: nat)
    requires i < |objects|
    ensures exists k :: OnlyAt(Calls(objects, done), i, k)
  {
    hide Calls, Askable;
    var calls, wanted := Calls(objects, done), Askable(objects[i]);
    var skipped, pick := Picked(objects, false, |objects|), Picked(objects, wanted, |objects|);
    assert i in pick;
    var m :| 0 <= m < |pick| && pick[m] == i;
    var k: nat := if wanted then |skipped| + m else m;
    CallIndex(objects, done, k);
    forall j | 0 <= j < |calls| && calls[j].index == i
      ensures j == k
    {
      CallIndex(objects, done, j);
      PickedOnce(objects, wanted, if wanted then j - |skipped| else j, m);
    }
    assert OnlyAt(calls, i, k);
  }

  /** The reply to the m-th asked name goes to that name's index, and to no other call. */
  lemma ReplyGoesHome(objects: seq<seq<byte>>, done: seq<Object>, m: nat)
    requires var asked := Picked(objects, true, |objects|); m < |asked| == |done|
    ensures var asked, skipped := Picked(objects, true, |objects|), Picked(objects, false, |objects|);
      var k := |skipped| + m;
      && k < |Calls(objects, done)| && Calls(objects, done)[k] == Call(asked[m], done[m])
      && OnlyAt(Calls(objects, done), asked[m], k)
  {
    var asked, skipped := Picked(objects, true, |objects|), Picked(objects, false, |objects|);
    var k := |skipped| + m;
    CallIndex(objects, done, k);
    OncePerIndex(objects, done, asked[m]);
  }

  /** A child that answers every asked name, however its output is cut and however it then
    * ends: the run succeeds, each asked name's index is called once, with its own reply, and
    * each name that cannot be asked once, with nothing. */
  lemma EveryReplyArrives(objects: seq<seq<byte>>, cap: nat, replies: seq<Reply>, chunks: seq<seq<byte>>, exited: bool)
    requires forall k :: 0 <= k < |replies| ==> WellFormed(replies[k])
    requires L.Joined(chunks) == Stream(replies) && |replies| == |Picked(objects, true, |objects|)|
    ensures Succeeds(objects, cap, chunks, exited)
    ensures var calls := Calls(objects, OnBytes(cap, Fresh, L.Joined(chunks)).done);
      var asked, skipped := Picked(objects, true, |objects|), Picked(objects, false, |objects|);
      && (forall m :: 0 <= m < |asked| ==>
            OnlyAt(calls, asked[m], |skipped| + m) && calls[|skipped| + m] == Call(asked[m], Expected(cap, replies[m])))
      && (forall m :: 0 <= m < |skipped| ==> OnlyAt(calls, skipped[m], m) && calls[m] == Call(skipped[m], None))
  {
    hide OnBytes, Calls, Expected, WellFormed, OnlyAt, Stream;
    StreamIsRead(cap, replies, chunks);
    var done := ExpectedAll(cap, replies);
    forall m | 0 <= m < |Picked(objects, true, |objects|)|
      ensures var asked, skipped := Picked(objects, true, |objects|), Picked(objects, false, |objects|);
        OnlyAt(Calls(objects, done), asked[m], |skipped| + m) &&
          Calls(objects, done)[|skipped| + m] == Call(asked[m], Expected(cap, replies[m]))
    {
      ReplyGoesHome(objects, done, m);
    }
    forall m | 0 <= m < |Picked(objects, false, |objects|)|
      ensures var skipped := Picked(objects, false, |objects|);
        OnlyAt(Calls(objects, done), skipped[m], m) && Calls(objects, done)[m] == Call(skipped[m], None)
    {
      RefusalGoesHome(objects, done, m);
    }
  }

  lemma RefusalGoesHome(objects: seq<seq<byte>>, done: seq<Object>, m: nat)
    requires m < |Picked(objects, false, |objects|)|
    ensures var skipped := Picked(objects, false, |objects|);
      m < |Calls(objects, done)| && Calls(objects, done)[m] == Call(skipped[m], None) &&
        OnlyAt(Calls(objects, done), skipped[m], m)
  {
    CallIndex(objects, done, m);
    OncePerIndex(objects, done, Picked(objects, false, |objects|)[m]);
  }

  /** Well-formed replies are read whole, and no cut of them fails. */
  lemma StreamIsRead(cap: nat, replies: seq<Reply>, chunks: seq<seq<byte>>)
    requires forall k :: 0 <= k < |replies| ==> WellFormed(replies[k])
    requires L.Joined(chunks) == Stream(replies)
    ensures OnBytes(cap, Fresh, L.Joined(chunks)).done == ExpectedAll(cap, replies)
    ensures forall k :: 0 <= k <= |chunks| ==> |OnBytes(cap, Fresh, L.Joined(chunks[..k])).head| <= HEADER_LIMIT
  {
    StreamRead(cap, Fresh, replies);
    assert [] + ExpectedAll(cap, replies) == ExpectedAll(cap, replies);
    forall k | 0 <= k <= |chunks|
      ensures |OnBytes(cap, Fresh, L.Joined(chunks[..k])).head| <= HEADER_LIMIT
    {
      JoinedPrefix(chunks, k);
      var n := |L.Joined(chunks[..k])|;
      assert L.Joined(chunks)[..n] == L.Joined(chunks[..k]);
      NoCutFails(cap, Fresh, replies, n);
    }
  }

  lemma {:induction false} JoinedPrefix(chunks: seq<seq<byte>>, k: nat)
    requires k <= |chunks|
    ensures L.Joined(chunks[..k]) <= L.Joined(chunks)
    decreases |chunks| - k
  {
    if k == |chunks| {
      assert chunks[..k] == chunks;
    } else {
      JoinedPrefix(chunks, k + 1);
      assert chunks[..k + 1][..k] == chunks[..k];
    }
  }
}
