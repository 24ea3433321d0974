/** The stat cache's file format: an encoder and a streaming decoder. */
module CacheCodec {
  import opened Base
  import Utf8
  import opened StatCache

  // `sum` stands for SHA-256 throughout. Paths are byte strings that must be UTF-8.

  // ---- little-endian words ------------------------------------------------------------

  function Pow256(k: nat): (r: nat)
    ensures r >= 1
  {
    if k == 0 then 1 else 256 * Pow256(k - 1)
  }

  function Le(x: nat, k: nat): (s: seq<byte>)
    ensures |s| == k
  {
    if k == 0 then [] else [x % 256] + Le(x / 256, k - 1)
  }

  function UnLe(s: seq<byte>): (x: nat)
    ensures x < Pow256(|s|)
  {
    if s == [] then 0 else s[0] + 256 * UnLe(s[1..])
  }

  lemma {:induction false} UnLeOfLe(x: nat, k: nat)
    requires x < Pow256(k)
    ensures UnLe(Le(x, k)) == x
    decreases k
  {
    if k > 0 {
      UnLeOfLe(x / 256, k - 1);
      assert Le(x, k)[1..] == Le(x / 256, k - 1);
    }
  }

  lemma {:induction false} LeOfUnLe(s: seq<byte>)
    ensures Le(UnLe(s), |s|) == s
    decreases |s|
  {
    if s != [] {
      LeOfUnLe(s[1..]);
      assert UnLe(s) % 256 == s[0] && UnLe(s) / 256 == UnLe(s[1..]);
    }
  }

  lemma Widths()
    ensures Pow256(4) == 0x1_0000_0000 && Pow256(8) == 0x1_0000_0000_0000_0000
  {
    assert Pow256(2) == 0x1_0000;
    assert Pow256(4) == 256 * (256 * Pow256(2));
    assert Pow256(6) == 256 * (256 * Pow256(4));
    assert Pow256(8) == 256 * (256 * Pow256(6));
  }

  function U64Bytes(x: u64): seq<byte> { Le(x, 8) }
  function U32Bytes(x: u32): seq<byte> { Le(x, 4) }
  function I64Bytes(x: i64): seq<byte> { Le(if x < 0 then x + 0x1_0000_0000_0000_0000 else x, 8) }

  function U64Of(s: seq<byte>): u64
    requires |s| == 8
  {
    Widths();
    UnLe(s)
  }
  function U32Of(s: seq<byte>): u32
    requires |s| == 4
  {
    Widths();
    UnLe(s)
  }
  function I64Of(s: seq<byte>): i64
    requires |s| == 8
  {
    Widths();
    var x := UnLe(s);
    if x > I64_MAX then x - 0x1_0000_0000_0000_0000 else x
  }

  lemma WordsRoundTrip(a: u64, b: u32, c: i64)
    ensures U64Of(U64Bytes(a)) == a && U32Of(U32Bytes(b)) == b && I64Of(I64Bytes(c)) == c
  {
    Widths();
    UnLeOfLe(a, 8);
    UnLeOfLe(b, 4);
    UnLeOfLe(if c < 0 then c + 0x1_0000_0000_0000_0000 else c, 8);
  }

  lemma BytesRoundTrip(s: seq<byte>)
    ensures |s| == 8 ==> U64Bytes(U64Of(s)) == s && I64Bytes(I64Of(s)) == s
    ensures |s| == 4 ==> U32Bytes(U32Of(s)) == s
  {
    LeOfUnLe(s);
  }

  // ---- the format -----------------------------------------------------------------------

  const MAGIC: seq<byte> := [0x58, 0x4D, 0x46, 0x48, 0x41, 0x53, 0x48, 0x31]
  const HEADER_BYTES: nat := 24
  const ENTRY_KEY_BYTES: nat := 76
  const ENTRY_FIXED_BYTES: nat := 80
  const DURATION_BYTES: nat := 8
  const CHECKSUM_BYTES: nat := 32

  datatype Row = Row(path: seq<byte>, entry: Entry)

  /** A row the encoder accepts and the decoder gives back. */
  predicate RowOk(r: Row) { |r.path| <= U32_MAX && Utf8.Valid(r.path) }
  predicate RowsOk(rows: seq<Row>) { forall k :: 0 <= k < |rows| ==> RowOk(rows[k]) }

  function Fixed(e: Entry): (s: seq<byte>)
    ensures |s| == ENTRY_KEY_BYTES
  {
    var k := e.key;
    U64Bytes(k.size) + I64Bytes(k.mtime) + I64Bytes(k.ctime) + U64Bytes(k.ino) + U64Bytes(k.dev) + U32Bytes(k.mode) +
      e.digest
  }

  function UnFixed(s: seq<byte>): Entry
    requires |s| == ENTRY_KEY_BYTES
  {
    Entry(StatKey(U64Of(s[0..8]), I64Of(s[8..16]), I64Of(s[16..24]), U64Of(s[24..32]), U64Of(s[32..40]),
      U32Of(s[40..44])), s[44..76])
  }

  lemma FixedRoundTrip(e: Entry)
    ensures UnFixed(Fixed(e)) == e
  {
    var k, s := e.key, Fixed(e);
    WordsRoundTrip(k.size, k.mode, k.mtime);
    WordsRoundTrip(k.ino, k.mode, k.ctime);
    WordsRoundTrip(k.dev, k.mode, k.ctime);
    assert s[0..8] == U64Bytes(k.size) && s[8..16] == I64Bytes(k.mtime) && s[16..24] == I64Bytes(k.ctime);
    assert s[24..32] == U64Bytes(k.ino) && s[32..40] == U64Bytes(k.dev) && s[40..44] == U32Bytes(k.mode);
    assert s[44..76] == e.digest;
  }

  lemma UnFixedRoundTrip(s: seq<byte>)
    requires |s| == ENTRY_KEY_BYTES
    ensures Fixed(UnFixed(s)) == s
  {
    BytesRoundTrip(s[0..8]);
    BytesRoundTrip(s[8..16]);
    BytesRoundTrip(s[16..24]);
    BytesRoundTrip(s[24..32]);
    BytesRoundTrip(s[32..40]);
    BytesRoundTrip(s[40..44]);
    assert s == s[0..8] + s[8..16] + s[16..24] + s[24..32] + s[32..40] + s[40..44] + s[44..76];
  }

  function RowBytes(r: Row): (s: seq<byte>)
    requires |r.path| <= U32_MAX
    ensures |s| == ENTRY_FIXED_BYTES + |r.path|
  {
    U32Bytes(|r.path|) + r.path + Fixed(r.entry)
  }

  function RowsBytes(rows: seq<Row>): (s: seq<byte>)
    requires RowsOk(rows)
    ensures |s| >= ENTRY_FIXED_BYTES * |rows|
  {
    if rows == [] then [] else RowBytes(rows[0]) + RowsBytes(rows[1..])
  }

  datatype Contents = Contents(host: i64, rows: seq<Row>, elapsed: i64)

  predicate Encodable(c: Contents) { RowsOk(c.rows) && |c.rows| <= U64_MAX }

  function Body(c: Contents): seq<byte>
    requires Encodable(c)
  {
    MAGIC + I64Bytes(c.host) + U64Bytes(|c.rows|) + RowsBytes(c.rows) + I64Bytes(c.elapsed)
  }

  type Sum = seq<byte> -> Digest

  function Encoded(c: Contents, sum: Sum): seq<byte>
    requires Encodable(c)
  {
    Body(c) + sum(Body(c))
  }

  // ---- reading it back ---------------------------------------------------------------------

  datatype Got<T> = Got(value: T, rest: seq<byte>)

  function ParseRow(b: seq<byte>): Option<Got<Row>> {
    if |b| < 4 then None
    else
      var n := U32Of(b[..4]);
      if |b| < ENTRY_FIXED_BYTES + n || !Utf8.Valid(b[4..4 + n]) then None
      else Some(Got(Row(b[4..4 + n], UnFixed(b[4 + n..80 + n])), b[80 + n..]))
  }

  function ParseRows(b: seq<byte>, count: nat): Option<Got<seq<Row>>>
    decreases count
  {
    if count == 0 then Some(Got([], b))
    else
      var first := ParseRow(b);
      if first.None? then None
      else
        var more := ParseRows(first.value.rest, count - 1);
        if more.None? then None else Some(Got([first.value.value] + more.value.value, more.value.rest))
  }

  /** The contents of a body, the checksum aside. */
  function ParseBody(body: seq<byte>): Option<Contents> {
    if |body| < HEADER_BYTES + DURATION_BYTES || body[..8] != MAGIC then None
    else
      var rows := ParseRows(body[24..], U64Of(body[16..24]));
      if rows.None? || |rows.value.rest| != DURATION_BYTES then None
      else Some(Contents(I64Of(body[8..16]), rows.value.value, I64Of(rows.value.rest)))
  }

  /** The contents of a whole cache file. */
  function Parse(b: seq<byte>, sum: Sum): Option<Contents> {
    if |b| < HEADER_BYTES + DURATION_BYTES + CHECKSUM_BYTES || b[|b| - 32..] != sum(b[..|b| - 32]) then None
    else ParseBody(b[..|b| - 32])
  }

  lemma RowParses(r: Row, rest: seq<byte>)
    requires RowOk(r)
    ensures ParseRow(RowBytes(r) + rest) == Some(Got(r, rest))
  {
    var b, n := RowBytes(r) + rest, |r.path|;
    assert b[..4] == U32Bytes(n);
    WordsRoundTrip(0, n, 0);
    assert b[4..4 + n] == r.path && b[4 + n..80 + n] == Fixed(r.entry) && b[80 + n..] == rest;
    FixedRoundTrip(r.entry);
  }

  lemma ParsedRow(b: seq<byte>)
    requires ParseRow(b).Some?
    ensures RowOk(ParseRow(b).value.value)
    ensures b == RowBytes(ParseRow(b).value.value) + ParseRow(b).value.rest
  {
    hide Fixed, UnFixed;
    var n := U32Of(b[..4]);
    BytesRoundTrip(b[..4]);
    UnFixedRoundTrip(b[4 + n..80 + n]);
    assert b == b[..4] + b[4..4 + n] + b[4 + n..80 + n] + b[80 + n..];
  }

  lemma {:induction false} RowsParse(rows: seq<Row>, rest: seq<byte>)
    requires RowsOk(rows)
    ensures ParseRows(RowsBytes(rows) + rest, |rows|) == Some(Got(rows, rest))
  {
    hide ParseRow, RowBytes;
    if rows == [] {
      assert RowsBytes(rows) + rest == rest;
    } else {
      assert rows == [rows[0]] + rows[1..];
      RowsBytesCons(rows[0], rows[1..], rest);
      RowParses(rows[0], RowsBytes(rows[1..]) + rest);
      RowsParse(rows[1..], rest);
    }
  }

  lemma {:induction false} ParsedRows(b: seq<byte>, count: nat)
    requires ParseRows(b, count).Some?
    ensures var r := ParseRows(b, count).value;
      RowsOk(r.value) && |r.value| == count && b == RowsBytes(r.value) + r.rest
    decreases count
  {
    hide ParseRow, RowBytes;
    if count == 0 {
      assert b == RowsBytes([]) + b;
    } else {
      ParsedRow(b);
      var first := ParseRow(b).value;
      ParsedRows(first.rest, count - 1);
      var more := ParseRows(first.rest, count - 1).value;
      RowsBytesCons(first.value, more.value, more.rest);
    }
  }

  lemma RowsBytesCons(first: Row, more: seq<Row>, rest: seq<byte>)
    requires RowOk(first) && RowsOk(more)
    ensures RowsOk([first] + more)
    ensures RowsBytes([first] + more) + rest == RowBytes(first) + (RowsBytes(more) + rest)
  {
    assert ([first] + more)[1..] == more;
  }

  /** A body is its fields, one after another. */
  lemma BodyFields(body: seq<byte>, c: Contents)
    requires Encodable(c)
    requires |body| >= 24 && body[..8] == MAGIC && body[8..16] == I64Bytes(c.host) && body[16..24] == U64Bytes(|c.rows|)
    requires body[24..] == RowsBytes(c.rows) + I64Bytes(c.elapsed)
    ensures body == Body(c)
  {
    Joined(body, MAGIC, I64Bytes(c.host), U64Bytes(|c.rows|), RowsBytes(c.rows), I64Bytes(c.elapsed));
  }

  lemma Unjoined(a: seq<byte>, b: seq<byte>, c: seq<byte>, d: seq<byte>, e: seq<byte>)
    requires |a| == |b| == |c| == 8
    ensures var body := a + b + c + d + e;
      body[..8] == a && body[8..16] == b && body[16..24] == c && body[24..] == d + e
  {
  }

  lemma Joined(body: seq<byte>, a: seq<byte>, b: seq<byte>, c: seq<byte>, d: seq<byte>, e: seq<byte>)
    requires |a| == |b| == |c| == 8 && |body| >= 24
    requires body[..8] == a && body[8..16] == b && body[16..24] == c && body[24..] == d + e
    ensures body == a + b + c + d + e
  {
    assert body == body[..8] + body[8..16] + body[16..24] + body[24..];
  }

  lemma BodyRoundTrip(c: Contents)
    requires Encodable(c)
    ensures ParseBody(Body(c)) == Some(c)
  {
    Unjoined(MAGIC, I64Bytes(c.host), U64Bytes(|c.rows|), RowsBytes(c.rows), I64Bytes(c.elapsed));
    WordsRoundTrip(|c.rows|, 0, c.host);
    WordsRoundTrip(|c.rows|, 0, c.elapsed);
    RowsParse(c.rows, I64Bytes(c.elapsed));
  }

  /** Every encoded file parses back to what was encoded. */
  lemma RoundTrip(c: Contents, sum: Sum)
    requires Encodable(c)
    ensures Parse(Encoded(c, sum), sum) == Some(c)
  {
    var b, body := Encoded(c, sum), Body(c);
    BodyRoundTrip(c);
    assert b[..|b| - 32] == body && b[|b| - 32..] == sum(body);
  }

  lemma ParsedBody(body: seq<byte>)
    requires ParseBody(body).Some?
    ensures Encodable(ParseBody(body).value) && body == Body(ParseBody(body).value)
  {
    ParsedRows(body[24..], U64Of(body[16..24]));
    BytesRoundTrip(body[8..16]);
    BytesRoundTrip(body[16..24]);
    BytesRoundTrip(ParseRows(body[24..], U64Of(body[16..24])).value.rest);
    BodyFields(body, ParseBody(body).value);
  }

  /** A file parses only if it is exactly what encoding its contents writes. */
  lemma ParsedIsEncoded(b: seq<byte>, sum: Sum)
    requires Parse(b, sum).Some?
    ensures Encodable(Parse(b, sum).value) && b == Encoded(Parse(b, sum).value, sum)
  {
    ParsedBody(b[..|b| - 32]);
    assert b == b[..|b| - 32] + b[|b| - 32..];
  }

  lemma ParseRowExtends(b: seq<byte>, more: seq<byte>)
    requires ParseRow(b).Some?
    ensures ParseRow(b + more) == Some(Got(ParseRow(b).value.value, ParseRow(b).value.rest + more))
  {
    ParsedRow(b);
    var got := ParseRow(b).value;
    assert b + more == RowBytes(got.value) + (got.rest + more);
    RowParses(got.value, got.rest + more);
  }

  lemma {:induction false} ParseRowsExtends(b: seq<byte>, more: seq<byte>, count: nat)
    requires ParseRows(b, count).Some?
    ensures ParseRows(b + more, count)
      == Some(Got(ParseRows(b, count).value.value, ParseRows(b, count).value.rest + more))
    decreases count
  {
    hide ParseRow;
    if count > 0 {
      ParseRowExtends(b, more);
      ParseRowsExtends(ParseRow(b).value.rest, more, count - 1);
    }
  }

  lemma PrefixFields(body: seq<byte>, longer: seq<byte>)
    requires 24 <= |body| <= |longer| && body == longer[..|body|]
    ensures longer[16..24] == body[16..24] && longer[24..] == body[24..] + longer[|body|..]
  {
  }

  /** No encoded file is the beginning of another: a longer or shorter file than one that
    * parses does not parse. */
  lemma LengthIsFixed(b: seq<byte>, more: seq<byte>, sum: Sum)
    requires Parse(b, sum).Some? && Parse(b + more, sum).Some?
    ensures more == []
  {
    var body, longer := b[..|b| - 32], (b + more)[..|b + more| - 32];
    PrefixFields(body, longer);
    ParseRowsExtends(body[24..], longer[|body|..], U64Of(body[16..24]));
  }

  /** A truncated cache file is rejected, whatever the checksum function. */
  lemma TruncatedIsRejected(c: Contents, sum: Sum, n: nat)
    requires Encodable(c) && n < |Encoded(c, sum)|
    ensures Parse(Encoded(c, sum)[..n], sum) == None
  {
    var b := Encoded(c, sum);
    RoundTrip(c, sum);
    assert b == b[..n] + b[n..];
    if Parse(b[..n], sum).Some? {
      LengthIsFixed(b[..n], b[n..], sum);
      assert false;
    }
  }

  /** So is one with bytes after its end. */
  lemma TrailingIsRejected(c: Contents, sum: Sum, more: seq<byte>)
    requires Encodable(c) && more != []
    ensures Parse(Encoded(c, sum) + more, sum) == None
  {
    RoundTrip(c, sum);
    if Parse(Encoded(c, sum) + more, sum).Some? {
      LengthIsFixed(Encoded(c, sum), more, sum);
      assert false;
    }
  }

  /** And one whose body was altered under the old checksum, unless the two sums agree. */
  lemma AlteredIsRejected(c: Contents, sum: Sum, body: seq<byte>)
    requires Encodable(c) && sum(body) != sum(Body(c))
    ensures Parse(body + sum(Body(c)), sum) == None
  {
    var b := body + sum(Body(c));
    assert |b| >= 32 ==> b[..|b| - 32] == body && b[|b| - 32..] == sum(Body(c));
  }

  // ---- fields that do not fit, under any checksum -----------------------------------------------------

  /** A body with any count and any bytes for its rows. */
  function RawBody(host: i64, count: u64, rows: seq<byte>, elapsed: i64): seq<byte> {
    MAGIC + I64Bytes(host) + U64Bytes(count) + rows + I64Bytes(elapsed)
  }

  function Sealed(body: seq<byte>, sum: Sum): seq<byte> { body + sum(body) }

  /** Such a file parses exactly when its rows do, with nothing but the duration left. */
  lemma RawParses(host: i64, count: u64, rows: seq<byte>, elapsed: i64, sum: Sum)
    ensures Parse(Sealed(RawBody(host, count, rows, elapsed), sum), sum).Some? <==>
      var got := ParseRows(rows + I64Bytes(elapsed), count); got.Some? && |got.value.rest| == DURATION_BYTES
  {
    hide ParseRows;
    var body := RawBody(host, count, rows, elapsed);
    var b := Sealed(body, sum);
    assert b[..|b| - 32] == body && b[|b| - 32..] == sum(body);
    assert body[..8] == MAGIC && body[16..24] == U64Bytes(count) && body[24..] == rows + I64Bytes(elapsed);
    WordsRoundTrip(count, 0, 0);
  }

  lemma {:induction false} RowsBytesSplit(rows: seq<Row>, k: nat)
    requires RowsOk(rows) && k <= |rows|
    ensures RowsOk(rows[..k]) && RowsOk(rows[k..]) && RowsBytes(rows) == RowsBytes(rows[..k]) + RowsBytes(rows[k..])
    decreases k
  {
    hide RowBytes, Utf8.Valid;
    if k == 0 {
      assert rows[..0] == [] && rows[0..] == rows;
    } else {
      var a, b := rows[..k], rows[k..];
      RowsBytesSplit(rows[1..], k - 1);
      assert a[1..] == rows[1..][..k - 1] && b == rows[1..][k - 1..] && a[0] == rows[0];
      Associates(RowBytes(rows[0]), RowsBytes(a[1..]), RowsBytes(b));
    }
  }

  lemma Associates(a: seq<byte>, b: seq<byte>, c: seq<byte>) ensures a + (b + c) == a + b + c {}

  lemma ShortRow(b: seq<byte>)
    requires |b| < ENTRY_FIXED_BYTES
    ensures ParseRow(b) == None
  {
  }

  /** A count other than the number of rows is rejected, whatever the checksum function. */
  lemma CountIsFixed(c: Contents, count: u64, sum: Sum)
    requires Encodable(c) && count != |c.rows|
    ensures Parse(Sealed(RawBody(c.host, count, RowsBytes(c.rows), c.elapsed), sum), sum) == None
  {
    hide ParseRow, RowBytes, Parse;
    var rows, tail := c.rows, I64Bytes(c.elapsed);
    RawParses(c.host, count, RowsBytes(rows), c.elapsed, sum);
    if count > |rows| {
      RowsParse(rows, tail);
      ShortRow(tail);
      RowsEnd(RowsBytes(rows) + tail, |rows|, rows, tail, count);
    } else {
      RowsBytesSplit(rows, count);
      var rest := RowsBytes(rows[count..]) + tail;
      RowsParse(rows[..count], rest);
      assert RowsBytes(rows) + tail == RowsBytes(rows[..count]) + rest;
    }
  }

  lemma Regroup(a: seq<byte>, b: seq<byte>, c: seq<byte>, d: seq<byte>)
    ensures a + (b + c) + d == a + (b + (c + d))
  {
  }

  lemma DurationBytes(elapsed: i64) ensures |I64Bytes(elapsed)| == DURATION_BYTES {}

  lemma LongRow(n: u32, tail: seq<byte>)
    requires |tail| < n + ENTRY_KEY_BYTES
    ensures ParseRow(U32Bytes(n) + tail) == None
  {
    assert (U32Bytes(n) + tail)[..4] == U32Bytes(n);
    WordsRoundTrip(0, n, 0);
  }

  /** A path length past the bytes that are left is rejected, after any rows. */
  lemma OverlongPathIsRejected(host: i64, count: u64, rows: seq<Row>, n: u32, tail: seq<byte>, elapsed: i64, sum: Sum)
    requires RowsOk(rows) && |rows| < count && |tail| + DURATION_BYTES < n + ENTRY_KEY_BYTES
    ensures Parse(Sealed(RawBody(host, count, RowsBytes(rows) + (U32Bytes(n) + tail), elapsed), sum), sum) == None
  {
    hide ParseRows, ParseRow, RowBytes, Parse, RowsBytes, U32Bytes, I64Bytes, RawBody, Sealed;
    var rest := U32Bytes(n) + (tail + I64Bytes(elapsed));
    RawParses(host, count, RowsBytes(rows) + (U32Bytes(n) + tail), elapsed, sum);
    RowsParse(rows, rest);
    DurationBytes(elapsed);
    LongRow(n, tail + I64Bytes(elapsed));
    Regroup(RowsBytes(rows), U32Bytes(n), tail, I64Bytes(elapsed));
    RowsEnd(RowsBytes(rows) + rest, |rows|, rows, rest, count);
  }

  /** A length of the last path other than its own is rejected too: the row would end elsewhere. */
  lemma LastLengthIsFixed(c: Contents, n: u32, sum: Sum)
    requires Encodable(c) && c.rows != [] && n != |c.rows[|c.rows| - 1].path|
    ensures var init, last := c.rows[..|c.rows| - 1], c.rows[|c.rows| - 1];
      Parse(Sealed(RawBody(c.host, |c.rows|, RowsBytes(init) + (U32Bytes(n) + last.path + Fixed(last.entry)),
        c.elapsed), sum), sum) == None
  {
    hide ParseRows, RowBytes, Parse, RowsBytes, Fixed, UnFixed, Utf8.Valid;
    var init, last := c.rows[..|c.rows| - 1], c.rows[|c.rows| - 1];
    var bytes := U32Bytes(n) + last.path + Fixed(last.entry);
    var rest := bytes + I64Bytes(c.elapsed);
    RawParses(c.host, |c.rows|, RowsBytes(init) + bytes, c.elapsed, sum);
    RowsParse(init, rest);
    assert RowsBytes(init) + bytes + I64Bytes(c.elapsed) == RowsBytes(init) + rest;
    assert rest[..4] == U32Bytes(n);
    WordsRoundTrip(0, n, 0);
    ParseRowsSnoc(RowsBytes(init) + rest, |init|);
  }

  // ---- what the decoder returns ---------------------------------------------------------------

  /** Rows as a map; a repeated path keeps its last row. */
  function RowMap(rows: seq<Row>): map<seq<byte>, Entry> {
    if rows == [] then map[]
    else RowMap(rows[..|rows| - 1])[rows[|rows| - 1].path := rows[|rows| - 1].entry]
  }

  function CacheOf(c: Contents, written: i64): Cache<seq<byte>> {
    Cache(RecordedStart(c.host, written, c.elapsed), RowMap(c.rows))
  }

  lemma {:induction false} RowMapHolds(rows: seq<Row>)
    requires forall i, j :: 0 <= i < j < |rows| ==> rows[i].path != rows[j].path
    ensures forall k :: 0 <= k < |rows| ==> rows[k].path in RowMap(rows) && RowMap(rows)[rows[k].path] == rows[k].entry
    ensures forall p :: p in RowMap(rows) ==> exists k :: 0 <= k < |rows| && rows[k].path == p
  {
    if rows != [] {
      var init := rows[..|rows| - 1];
      RowMapHolds(init);
      assert forall k :: 0 <= k < |init| ==> init[k] == rows[k];
    }
  }

  /** A bounded reader that feeds what it returns to the hasher. */
  class HashingReader {
    const data: seq<byte>
    var at: nat
    /** The bytes the hasher was fed. */
    var hashed: seq<byte>

    ghost predicate Valid()
      reads this
    {
      at <= |data| && hashed == data[..at]
    }

    constructor (data: seq<byte>)
      ensures Valid() && this.data == data && at == 0
    {
      this.data, at, hashed := data, 0, [];
    }

    /** Exactly `n` bytes, hashed as they are read, or nothing when the limit comes first. */
    method ReadExact(n: nat) returns (got: Option<seq<byte>>)
      requires Valid()
      modifies this
      ensures Valid()
      ensures got.Some? <==> old(at) + n <= |data|
      ensures got.Some? ==> at == old(at) + n && got.value == data[old(at)..at] && hashed == old(hashed) + got.value
      ensures got.None? ==> at == old(at) && hashed == old(hashed)
    {
      if at + n > |data| { return None; }
      var bytes := data[at..at + n];
      assert data[..at + n] == data[..at] + bytes;
      at, hashed := at + n, hashed + bytes;
      got := Some(bytes);
    }
  }

  lemma SliceOfRest(data: seq<byte>, from: nat, a: nat, b: nat)
    requires a <= b && from + b <= |data|
    ensures data[from..][a..b] == data[from + a..from + b] && data[from..][b..] == data[from + b..]
  {
  }

  /** One entry off the reader, as `ParseRow` reads it. */
  method ReadRow(r: HashingReader) returns (row: Option<Row>)
    requires r.Valid()
    modifies r
    ensures r.Valid()
    ensures ParseRow(r.data[old(r.at)..]) == if row.None? then None else Some(Got(row.value, r.data[r.at..]))
  {
    hide UnFixed, Utf8.Valid, U32Of;
    ghost var b, from := r.data[r.at..], r.at;
    var head := r.ReadExact(4);
    if head.None? { return None; }
    SliceOfRest(r.data, from, 0, 4);
    var n := U32Of(head.value);
    if n > |r.data| - r.at { return None; }
    var path := r.ReadExact(n);
    if path.None? { return None; }
    SliceOfRest(r.data, from, 4, 4 + n);
    if !Utf8.Valid(path.value) { return None; }
    var fixed := r.ReadExact(ENTRY_KEY_BYTES);
    if fixed.None? { return None; }
    SliceOfRest(r.data, from, 4 + n, 80 + n);
    row := Some(Row(path.value, UnFixed(fixed.value)));
  }

  lemma {:induction false} RowsNeedRoom(b: seq<byte>, count: nat)
    requires ParseRows(b, count).Some?
    ensures ENTRY_FIXED_BYTES * count + |ParseRows(b, count).value.rest| <= |b|
  {
    ParsedRows(b, count);
  }

  /** Parsing one row then the others is parsing them all. */
  lemma {:induction false} ParseRowsSnoc(b: seq<byte>, k: nat)
    requires ParseRows(b, k).Some?
    ensures ParseRows(b, k + 1) ==
      var head := ParseRows(b, k).value;
      var last := ParseRow(head.rest);
      if last.None? then None else Some(Got(head.value + [last.value.value], last.value.rest))
    decreases k
  {
    hide ParseRow;
    if k > 0 {
      var first := ParseRow(b).value;
      ParseRowsSnoc(first.rest, k - 1);
      var head, last := ParseRows(first.rest, k - 1).value, ParseRow(ParseRows(b, k).value.rest);
      if last.Some? {
        assert [first.value] + (head.value + [last.value.value]) == [first.value] + head.value + [last.value.value];
      }
    } else {
      assert forall r: Row :: [r] + [] == [] + [r];
    }
  }

  lemma {:induction false} ParseRowsMono(b: seq<byte>, k: nat, n: nat)
    requires k <= n && ParseRows(b, k).None?
    ensures ParseRows(b, n).None?
    decreases k
  {
    hide ParseRow;
    if ParseRow(b).Some? {
      ParseRowsMono(ParseRow(b).value.rest, k - 1, n - 1);
    }
  }

  lemma RowsGrow(b: seq<byte>, k: nat, rows: seq<Row>, rest: seq<byte>, row: Row, rest': seq<byte>)
    requires ParseRows(b, k) == Some(Got(rows, rest)) && ParseRow(rest) == Some(Got(row, rest'))
    ensures ParseRows(b, k + 1) == Some(Got(rows + [row], rest'))
    ensures RowMap(rows + [row]) == RowMap(rows)[row.path := row.entry]
  {
    hide ParseRow;
    ParseRowsSnoc(b, k);
    assert (rows + [row])[..|rows|] == rows;
  }

  lemma RowsEnd(b: seq<byte>, k: nat, rows: seq<Row>, rest: seq<byte>, count: nat)
    requires ParseRows(b, k) == Some(Got(rows, rest)) && ParseRow(rest) == None && k < count
    ensures ParseRows(b, count) == None
  {
    hide ParseRow;
    ParseRowsSnoc(b, k);
    ParseRowsMono(b, k + 1, count);
  }

  /** The entries of a body, one after another. */
  method ReadRows(r: HashingReader, count: nat) returns (entries: Option<map<seq<byte>, Entry>>)
    requires r.Valid()
    modifies r
    ensures r.Valid()
    ensures match ParseRows(r.data[old(r.at)..], count)
            case None => entries.None?
            case Some(got) => entries == Some(RowMap(got.value)) && r.data[r.at..] == got.rest
  {
    hide ParseRow;
    ghost var b: seq<byte> := r.data[r.at..];
    var m: map<seq<byte>, Entry> := map[];
    ghost var rows: seq<Row> := [];
    for k := 0 to count
      invariant r.Valid() && m == RowMap(rows)
      invariant ParseRows(b, k) == Some(Got(rows, r.data[r.at..]))
    {
      ghost var rest := r.data[r.at..];
      var row := ReadRow(r);
      if row.None? {
        RowsEnd(b, k, rows, rest, count);
        return None;
      }
      RowsGrow(b, k, rows, rest, row.value, r.data[r.at..]);
      m := m[row.value.path := row.value.entry];
      rows := rows + [row.value];
    }
    entries := Some(m);
  }

  /** The fields of a body. */
  method DecodeBody(r: HashingReader, written: i64) returns (cache: Option<Cache<seq<byte>>>)
    requires r.Valid() && r.at == 0 && |r.data| >= HEADER_BYTES + DURATION_BYTES
    modifies r
    ensures match ParseBody(r.data)
            case None => cache.None?
            case Some(c) => cache == Some(CacheOf(c, written))
    ensures cache.Some? ==> r.hashed == r.data
  {
    var room := |r.data| - (HEADER_BYTES + DURATION_BYTES);
    var magic := r.ReadExact(8);
    if magic.value != MAGIC { return None; }
    var start := r.ReadExact(8);
    var host := I64Of(start.value);
    var counted := r.ReadExact(8);
    var count := U64Of(counted.value);
    if count > room / ENTRY_FIXED_BYTES {
      if ParseRows(r.data[24..], count).Some? { RowsNeedRoom(r.data[24..], count); }
      return None;
    }
    var entries := ReadRows(r, count);
    if entries.None? { return None; }
    ghost var rest := r.data[r.at..];
    var duration := r.ReadExact(8);
    if duration.None? || r.at != |r.data| { return None; }
    assert rest == duration.value && r.data[..r.at] == r.data;
    cache := Some(Cache(RecordedStart(host, written, I64Of(duration.value)), entries.value));
  }

  /** Decode the first `len` bytes of a cache file last written at `written`, as a stream.
    * Nothing past `len` matters, and nothing is returned before the checksum matched. */
  method Decode(input: seq<byte>, len: nat, written: i64, sum: Sum) returns (cache: Option<Cache<seq<byte>>>)
    ensures len > |input| ==> cache.None?
    ensures len <= |input| ==>
      match Parse(input[..len], sum)
      case None => cache.None?
      case Some(c) => cache == Some(CacheOf(c, written))
  {
    hide ParseBody, CacheOf;
    if len < HEADER_BYTES + DURATION_BYTES + CHECKSUM_BYTES || len > |input| { return None; }
    var r := new HashingReader(input[..len - 32]);
    assert r.data == input[..len][..len - 32] && input[len - 32..len] == input[..len][len - 32..];
    cache := DecodeBody(r, written);
    if cache.Some? && input[len - 32..len] != sum(r.hashed) { cache := None; }
  }

  method WriteRow(w: seq<byte>, row: Row) returns (w': seq<byte>)
    requires |row.path| <= U32_MAX
    ensures w' == w + RowBytes(row)
  {
    w' := w + U32Bytes(|row.path|);
    w' := w' + row.path;
    w' := w' + Fixed(row.entry);
  }

  lemma EncodeGrows(head: seq<byte>, rows: seq<Row>, k: nat)
    requires k < |rows| && RowsOk(rows[..k]) && RowOk(rows[k])
    ensures RowsOk(rows[..k + 1])
    ensures head + RowsBytes(rows[..k]) + RowBytes(rows[k]) == head + RowsBytes(rows[..k + 1])
  {
    RowsBytesSnoc(rows[..k], rows[k]);
    assert rows[..k] + [rows[k]] == rows[..k + 1];
  }

  /** Encode into a growing output; None when a path is too long for its length field. */
  method EncodeInto(host: i64, rows: seq<Row>, elapsed: i64, sum: Sum) returns (out: Option<seq<byte>>)
    requires |rows| <= U64_MAX && forall k :: 0 <= k < |rows| ==> Utf8.Valid(rows[k].path)
    ensures out.Some? <==> RowsOk(rows)
    ensures out.Some? ==> out.value == Encoded(Contents(host, rows, elapsed), sum)
  {
    var w := MAGIC + I64Bytes(host) + U64Bytes(|rows|);
    ghost var head := w;
    for k := 0 to |rows|
      invariant RowsOk(rows[..k]) && w == head + RowsBytes(rows[..k])
    {
      if |rows[k].path| > U32_MAX {
        assert !RowOk(rows[k]);
        return None;
      }
      EncodeGrows(head, rows, k);
      w := WriteRow(w, rows[k]);
    }
    assert rows[..|rows|] == rows;
    w := w + I64Bytes(elapsed);
    out := Some(w + sum(w));
  }

  lemma {:induction false} RowsBytesSnoc(rows: seq<Row>, last: Row)
    requires RowsOk(rows) && RowOk(last)
    ensures RowsOk(rows + [last]) && RowsBytes(rows + [last]) == RowsBytes(rows) + RowBytes(last)
  {
    hide RowBytes, RowOk;
    if rows == [] {
      assert rows + [last] == [last] && [last][1..] == [];
    } else {
      RowsBytesSnoc(rows[1..], last);
      assert (rows + [last])[1..] == rows[1..] + [last];
    }
  }

  /** A cache holds exactly these rows, and records the earlier of the host's reading of the
    * pass's start and the filesystem's: the file's mtime less the duration. */
  ghost predicate Records(cache: Cache<seq<byte>>, host: i64, rows: seq<Row>, elapsed: i64, written: i64) {
    && cache.recorded == Min(host, SatSub(written, if elapsed < 0 then 0 else elapsed))
    && (forall k :: 0 <= k < |rows| ==> rows[k].path in cache.entries && cache.entries[rows[k].path] == rows[k].entry)
    && (forall p :: p in cache.entries ==> exists k :: 0 <= k < |rows| && rows[k].path == p)
  }

  ghost predicate DistinctPaths(rows: seq<Row>) { forall i, j :: 0 <= i < j < |rows| ==> rows[i].path != rows[j].path }

  /** What was encoded is what parsing and mapping it gives. */
  lemma StoredIsLoaded(host: i64, rows: seq<Row>, elapsed: i64, written: i64, sum: Sum)
    requires RowsOk(rows) && |rows| <= U64_MAX && DistinctPaths(rows)
    ensures var got := Parse(Encoded(Contents(host, rows, elapsed), sum), sum);
      got.Some? && Records(CacheOf(got.value, written), host, rows, elapsed, written)
  {
    hide Parse, Encoded, RowMap;
    RoundTrip(Contents(host, rows, elapsed), sum);
    RowMapHolds(rows);
  }

  // ---- storing and loading the file ------------------------------------------------------------------

  const MAX_CACHE_BYTES: nat := 64 * 1024 * 1024

  /** The size of the file that holds some rows. */
  function StoredSize(rows: seq<Row>): (n: nat)
    ensures n >= HEADER_BYTES + DURATION_BYTES + CHECKSUM_BYTES + ENTRY_FIXED_BYTES * |rows|
  {
    if rows == [] then HEADER_BYTES + DURATION_BYTES + CHECKSUM_BYTES
    else StoredSize(rows[..|rows| - 1]) + ENTRY_FIXED_BYTES + |rows[|rows| - 1].path|
  }

  lemma {:induction false} RowsFit(rows: seq<Row>)
    requires forall k :: 0 <= k < |rows| ==> Utf8.Valid(rows[k].path)
    ensures forall k :: 0 <= k < |rows| ==> |rows[k].path| <= StoredSize(rows)
    ensures RowsOk(rows) ==> |RowsBytes(rows)| == StoredSize(rows) - (HEADER_BYTES + DURATION_BYTES + CHECKSUM_BYTES)
    decreases |rows|
  {
    hide RowBytes, Utf8.Valid;
    if rows != [] {
      var init, last := rows[..|rows| - 1], rows[|rows| - 1];
      RowsFit(init);
      assert rows == init + [last] && forall k :: 0 <= k < |init| ==> rows[k] == init[k];
      if RowsOk(rows) { RowsBytesSnoc(init, last); }
    }
  }

  /** The size computed before writing is the size of the file written. */
  lemma SizeIsExact(host: i64, rows: seq<Row>, elapsed: i64, sum: Sum)
    requires (forall k :: 0 <= k < |rows| ==> Utf8.Valid(rows[k].path)) && StoredSize(rows) <= MAX_CACHE_BYTES
    ensures RowsOk(rows) && |rows| <= U64_MAX && |Encoded(Contents(host, rows, elapsed), sum)| == StoredSize(rows)
  {
    hide RowsBytes, Utf8.Valid, StoredSize;
    RowsFit(rows);
  }

  /** Write the cache file; rows past the size bound leave no file. */
  method Store(host: i64, rows: seq<Row>, elapsed: i64, sum: Sum) returns (file: Option<seq<byte>>)
    requires forall k :: 0 <= k < |rows| ==> Utf8.Valid(rows[k].path)
    ensures file.Some? <==> StoredSize(rows) <= MAX_CACHE_BYTES
    ensures file.Some? ==>
      RowsOk(rows) && |rows| <= U64_MAX && file.value == Encoded(Contents(host, rows, elapsed), sum)
    ensures file.Some? ==> |file.value| == StoredSize(rows)
  {
    hide RowsBytes, Utf8.Valid, Encoded;
    var size: nat := HEADER_BYTES + DURATION_BYTES + CHECKSUM_BYTES;
    for k := 0 to |rows|
      invariant size == Min(U64_MAX, StoredSize(rows[..k]))
    {
      assert rows[..k + 1][..k] == rows[..k];
      size := Min(U64_MAX, size + (ENTRY_FIXED_BYTES + |rows[k].path|));
    }
    assert rows[..|rows|] == rows;
    if size > MAX_CACHE_BYTES { return None; }
    SizeIsExact(host, rows, elapsed, sum);
    file := EncodeInto(host, rows, elapsed, sum);
  }

  datatype Loaded = Absent | Invalid | Valid(cache: Cache<seq<byte>>)

  /** Load the cache file: none, one that is too large or does not parse, or its cache. */
  method Load(file: Option<seq<byte>>, written: i64, sum: Sum) returns (r: Loaded)
    ensures file.None? <==> r.Absent?
    ensures file.Some? && |file.value| > MAX_CACHE_BYTES ==> r.Invalid?
    ensures file.Some? && |file.value| <= MAX_CACHE_BYTES ==>
      match Parse(file.value, sum)
      case None => r.Invalid?
      case Some(c) => r == Valid(CacheOf(c, written))
  {
    hide Parse, CacheOf;
    if file.None? { return Absent; }
    if |file.value| > MAX_CACHE_BYTES { return Invalid; }
    var cache := Decode(file.value, |file.value|, written, sum);
    assert file.value[..|file.value|] == file.value;
    r := if cache.Some? then Valid(cache.value) else Invalid;
  }

  /** What a pass stores is what the next pass loads, through both streams: the same entries and
    * the earlier of the two readings of its start; or no file, exactly past the size bound. */
  method StoreThenLoad(host: i64, rows: seq<Row>, elapsed: i64, written: i64, sum: Sum) returns (r: Loaded)
    requires (forall k :: 0 <= k < |rows| ==> Utf8.Valid(rows[k].path)) && DistinctPaths(rows)
    ensures StoredSize(rows) <= MAX_CACHE_BYTES ==> r.Valid? && Records(r.cache, host, rows, elapsed, written)
    ensures StoredSize(rows) > MAX_CACHE_BYTES ==> r.Absent?
  {
    hide Parse, CacheOf, Encoded, Records, Utf8.Valid, StoredSize;
    var file := Store(host, rows, elapsed, sum);
    if file.Some? { StoredIsLoaded(host, rows, elapsed, written, sum); }
    r := Load(file, written, sum);
  }
}
