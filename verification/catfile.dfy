/** One `git cat-file` pass over object ids, read whole. */
module CatFile {
  import opened Base
  import opened Decimal
  import opened DiffText

  const BLOB: seq<byte> := [0x62, 0x6C, 0x6F, 0x62]
  const MISSING: seq<byte> := [0x6D, 0x69, 0x73, 0x73, 0x69, 0x6E, 0x67]
  const U64_MAX: nat := 0xFFFF_FFFF_FFFF_FFFF

  /** Room per object for its header and trailing LF. */
  const CAT_FILE_RECORD_BYTES: nat := 128

  predicate Word(s: seq<byte>) { LF !in s && SPACE !in s }

  /** An object id as Git writes one: at most the 64 digits of SHA-256. */
  type Oid = s: seq<byte> | Word(s) && |s| <= 64 witness []

  /** An object's bytes; their number is printed as 64 bits. */
  type Content = s: seq<byte> | |s| <= U64_MAX witness []

  datatype Reply = Found(oid: Oid, kind: seq<byte>, content: Content) | Missing(oid: Oid)

  predicate ReplyOk(r: Reply) { r.Found? ==> Word(r.kind) }

  predicate IsBlob(r: Reply) { r.Found? && r.kind == BLOB }

  // ---- what Git prints ---------------------------------------------------------------------

  function HeaderOf(r: Reply): seq<byte> {
    match r
    case Found(oid, kind, content) => oid + [SPACE] + (kind + [SPACE] + Dec(|content|))
    case Missing(oid) => oid + [SPACE] + MISSING
  }

  /** A reply to `--batch`, or without its bytes to `--batch-check`. */
  function ReplyText(r: Reply, withBytes: bool): seq<byte> {
    HeaderOf(r) + [LF] + if withBytes && r.Found? then r.content + [LF] else []
  }

  function Printed(rs: seq<Reply>, withBytes: bool): seq<byte> {
    if rs == [] then [] else ReplyText(rs[0], withBytes) + Printed(rs[1..], withBytes)
  }

  // ---- how it is read ------------------------------------------------------------------------

  /** The size in a header of exactly three words, the second being `blob`. */
  function BlobSize(h: seq<byte>): Option<nat> {
    var i := FirstOf(h, SPACE);
    if i == |h| then None
    else
      var rest := h[i + 1..];
      var j := FirstOf(rest, SPACE);
      if j == |rest| || rest[..j] != BLOB || SPACE in rest[j + 1..] then None else ParseDec(rest[j + 1..], U64_MAX)
  }

  /** A blob's size, and its bytes when they were asked for. */
  datatype Sized = Sized(size: nat, body: seq<byte>)

  datatype Got = Got(blob: Sized, rest: seq<byte>)

  /** One object off the front; None when the output ends first or it is not a blob. */
  function TakeOne(out: seq<byte>, withBytes: bool): (r: Option<Got>) {
    var nl := FirstOf(out, LF);
    if nl == |out| then None
    else
      var size, rest := BlobSize(out[..nl]), out[nl + 1..];
      if size.None? then None
      else if !withBytes then Some(Got(Sized(size.value, []), rest))
      else if |rest| < size.value + 1 then None
      else Some(Got(Sized(size.value, rest[..size.value]), rest[size.value + 1..]))
  }

  function TakeAll(out: seq<byte>, n: nat, withBytes: bool): Option<seq<Sized>>
    decreases n
  {
    if n == 0 then Some([])
    else
      var one := TakeOne(out, withBytes);
      if one.None? then None else Prepend([one.value.blob], TakeAll(one.value.rest, n - 1, withBytes))
  }

  function Prepend(a: seq<Sized>, b: Option<seq<Sized>>): Option<seq<Sized>> {
    if b.None? then None else Some(a + b.value)
  }

  /** One object: its header, and its bytes with the LF after them. */
  method ReadOne(out: seq<byte>, withBytes: bool) returns (r: Option<Got>)
    ensures r == TakeOne(out, withBytes)
  {
    hide BlobSize;
    var nl := FirstOf(out, LF);
    if nl == |out| { return None; }
    var size := BlobSize(out[..nl]);
    if size.None? { return None; }
    var rest, body := out[nl + 1..], [];
    if withBytes {
      if |rest| < size.value { return None; }
      body := rest[..size.value];
      if |rest| < size.value + 1 { return None; }
      rest := rest[size.value + 1..];
    }
    return Some(Got(Sized(size.value, body), rest));
  }

  /** Read the objects of an output that is within the cap. */
  method CatFileBlobs(out: seq<byte>, n: nat, withBytes: bool, cap: nat) returns (r: Option<seq<Sized>>)
    ensures r == if |out| > cap then None else TakeAll(out, n, withBytes)
  {
    hide TakeOne;
    if |out| > cap { return None; }
    var rest, blobs := out, [];
    PrependNothing(TakeAll(out, n, withBytes));
    for k := 0 to n
      invariant Prepend(blobs, TakeAll(rest, n - k, withBytes)) == TakeAll(out, n, withBytes)
    {
      var one := ReadOne(rest, withBytes);
      if one.None? { return None; }
      PrependTwo(blobs, [one.value.blob], TakeAll(one.value.rest, n - k - 1, withBytes));
      blobs, rest := blobs + [one.value.blob], one.value.rest;
    }
    assert blobs + [] == blobs;
    return Some(blobs);
  }

  lemma PrependNothing(b: Option<seq<Sized>>)
    ensures Prepend([], b) == b
  {
    if b.Some? { assert [] + b.value == b.value; }
  }

  lemma PrependTwo(a: seq<Sized>, b: seq<Sized>, c: Option<seq<Sized>>)
    ensures Prepend(a, Prepend(b, c)) == Prepend(a + b, c)
  {
    if c.Some? { assert a + (b + c.value) == a + b + c.value; }
  }

  // ---- reading inverts printing ------------------------------------------------------------------

  lemma DecIsWord(n: nat)
    ensures Word(Dec(n))
  {
    var d := Dec(n);
    assert forall k :: 0 <= k < |d| ==> Digit(d[k]);
  }

  lemma ConcatWord(a: seq<byte>, b: seq<byte>)
    ensures LF !in a && LF !in b ==> LF !in a + b
  {
  }

  /** A header is read as a blob's size exactly when it is a blob's. */
  lemma HeaderReads(r: Reply)
    requires ReplyOk(r)
    ensures LF !in HeaderOf(r)
    ensures BlobSize(HeaderOf(r)) == if IsBlob(r) then Some(|r.content|) else None
  {
    hide Dec, Value;
    match r
    case Found(oid, kind, content) =>
      var d := Dec(|content|);
      DecIsWord(|content|);
      DecParses(|content|, U64_MAX);
      FirstOfSplit(oid, SPACE, kind + [SPACE] + d);
      FirstOfSplit(kind, SPACE, d);
      ConcatWord(kind + [SPACE], d);
      ConcatWord(oid + [SPACE], kind + [SPACE] + d);
    case Missing(oid) =>
      FirstOfSplit(oid, SPACE, MISSING);
      assert MISSING[0] == 0x6D && |MISSING| == 7 && Word(MISSING);
      FirstOfNone(MISSING, SPACE);
      ConcatWord(oid + [SPACE], MISSING);
  }

  lemma FirstOfNone(s: seq<byte>, b: byte)
    requires b !in s
    ensures FirstOf(s, b) == |s|
  {
    FirstOfSplit(s, b, []);
  }

  lemma ReplyTakes(r: Reply, withBytes: bool, rest: seq<byte>)
    requires ReplyOk(r)
    ensures TakeOne(ReplyText(r, withBytes) + rest, withBytes) ==
      if IsBlob(r) then Some(Got(Sized(|r.content|, if withBytes then r.content else []), rest)) else None
  {
    hide HeaderOf, BlobSize;
    var h := HeaderOf(r);
    var after := (if withBytes && r.Found? then r.content + [LF] else []) + rest;
    var out := ReplyText(r, withBytes) + rest;
    HeaderReads(r);
    assert out == h + [LF] + after;
    FirstOfSplit(h, LF, after);
    if IsBlob(r) && withBytes {
      var n := |r.content|;
      assert after[..n] == r.content && after[n + 1..] == rest;
    } else if IsBlob(r) {
      assert after == rest;
    }
  }

  predicate AllBlobs(rs: seq<Reply>) { forall k :: 0 <= k < |rs| ==> IsBlob(rs[k]) }

  /** What the replies give: each blob's size, and its bytes when they were asked for. */
  function Expected(rs: seq<Reply>, withBytes: bool): (r: seq<Sized>)
    requires AllBlobs(rs)
    ensures |r| == |rs|
    ensures forall k :: 0 <= k < |rs| ==> r[k] == Sized(|rs[k].content|, if withBytes then rs[k].content else [])
  {
    if rs == [] then []
    else [Sized(|rs[0].content|, if withBytes then rs[0].content else [])] + Expected(rs[1..], withBytes)
  }

  /** Every printed blob is read, in order; the pass fails exactly when a reply is no blob. What
    * follows the last reply does not matter. */
  lemma {:induction false} PrintedReads(rs: seq<Reply>, withBytes: bool, rest: seq<byte>)
    requires forall k :: 0 <= k < |rs| ==> ReplyOk(rs[k])
    ensures TakeAll(Printed(rs, withBytes) + rest, |rs|, withBytes) ==
      if AllBlobs(rs) then Some(Expected(rs, withBytes)) else None
    decreases |rs|
  {
    hide ReplyText, TakeOne;
    if rs != [] {
      var more := Printed(rs[1..], withBytes) + rest;
      assert Printed(rs, withBytes) + rest == ReplyText(rs[0], withBytes) + more;
      ReplyTakes(rs[0], withBytes, more);
      PrintedReads(rs[1..], withBytes, rest);
      assert AllBlobs(rs) <==> IsBlob(rs[0]) && AllBlobs(rs[1..]) by {
        assert forall k :: 1 <= k < |rs| ==> rs[k] == rs[1..][k - 1];
      }
    }
  }

  lemma CutReply(r: Reply, withBytes: bool, m: nat)
    requires ReplyOk(r) && m < |ReplyText(r, withBytes)|
    ensures TakeOne(ReplyText(r, withBytes)[..m], withBytes) == None
  {
    hide HeaderOf, BlobSize;
    var h, out := HeaderOf(r), ReplyText(r, withBytes)[..m];
    HeaderReads(r);
    if m <= |h| {
      assert out == h[..m];
      FirstOfNone(out, LF);
    } else {
      var after := out[|h| + 1..];
      assert out == h + [LF] + after;
      FirstOfSplit(h, LF, after);
    }
  }

  /** And it fails on an output that ends short, wherever that is. */
  lemma {:induction false} ShortIsRejected(rs: seq<Reply>, withBytes: bool, m: nat)
    requires (forall k :: 0 <= k < |rs| ==> ReplyOk(rs[k])) && m < |Printed(rs, withBytes)|
    ensures TakeAll(Printed(rs, withBytes)[..m], |rs|, withBytes) == None
    decreases |rs|
  {
    hide ReplyText, TakeOne;
    var first, rest := ReplyText(rs[0], withBytes), Printed(rs[1..], withBytes);
    var out := Printed(rs, withBytes)[..m];
    if m < |first| {
      assert out == first[..m];
      CutReply(rs[0], withBytes, m);
    } else {
      assert out == first + rest[..m - |first|];
      ReplyTakes(rs[0], withBytes, rest[..m - |first|]);
      ShortIsRejected(rs[1..], withBytes, m - |first|);
    }
  }

  // ---- the cap never gets in the way ---------------------------------------------------------------

  function Pow10(k: nat): (r: nat)
    ensures r >= 1
  {
    if k == 0 then 1 else 10 * Pow10(k - 1)
  }

  lemma {:induction false} DecLength(n: nat, k: nat)
    requires k >= 1 && n < Pow10(k)
    ensures |Dec(n)| <= k
    decreases k
  {
    if n >= 10 {
      assert k > 1;
      DecLength(n / 10, k - 1);
    }
  }

  lemma Pow10Twenty()
    ensures Pow10(20) > U64_MAX
  {
    assert Pow10(4) == 10_000;
    assert Pow10(8) == 10 * (10 * (10 * (10 * Pow10(4))));
    assert Pow10(12) == 10 * (10 * (10 * (10 * Pow10(8))));
    assert Pow10(16) == 10 * (10 * (10 * (10 * Pow10(12))));
    assert Pow10(20) == 10 * (10 * (10 * (10 * Pow10(16))));
  }

  lemma RecordFits(r: Reply, withBytes: bool)
    requires IsBlob(r) || r.Missing?
    ensures |ReplyText(r, withBytes)| <= CAT_FILE_RECORD_BYTES + if withBytes && r.Found? then |r.content| else 0
  {
    hide Dec, Pow10;
    if r.Found? {
      Pow10Twenty();
      DecLength(|r.content|, 20);
    }
  }

  function ContentBytes(rs: seq<Reply>): nat {
    if rs == [] then 0 else (if rs[0].Found? then |rs[0].content| else 0) + ContentBytes(rs[1..])
  }

  /** What Git prints for some objects is within the content's size and one record each. */
  lemma {:induction false} OutputFits(rs: seq<Reply>, withBytes: bool)
    requires forall k :: 0 <= k < |rs| ==> IsBlob(rs[k]) || rs[k].Missing?
    ensures |Printed(rs, withBytes)| <= CAT_FILE_RECORD_BYTES * |rs| + if withBytes then ContentBytes(rs) else 0
    decreases |rs|
  {
    hide ReplyText;
    if rs != [] {
      RecordFits(rs[0], withBytes);
      OutputFits(rs[1..], withBytes);
    }
  }
}
