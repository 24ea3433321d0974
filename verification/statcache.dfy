/** The stat cache of file hashes: keys, entries and when an entry is believed. */
module StatCache {
  import opened Base

  const I64_MIN: int := -0x8000_0000_0000_0000
  const I64_MAX: int := 0x7FFF_FFFF_FFFF_FFFF
  const U64_MAX: int := 0xFFFF_FFFF_FFFF_FFFF
  const U32_MAX: int := 0xFFFF_FFFF

  type i64 = x: int | I64_MIN <= x <= I64_MAX
  type u64 = x: int | 0 <= x <= U64_MAX
  type u32 = x: int | 0 <= x <= U32_MAX

  /** A SHA-256 digest; the hash itself is a parameter of every operation. */
  type Digest = d: seq<byte> | |d| == 32 witness seq(32, _ => 0)

  function SatSub(a: i64, b: i64): i64 {
    if a - b < I64_MIN then I64_MIN else if a - b > I64_MAX then I64_MAX else a - b
  }

  datatype StatKey = StatKey(size: u64, mtime: i64, ctime: i64, ino: u64, dev: u64, mode: u32) {
    function Newest(): i64 { if mtime <= ctime then ctime else mtime }
  }

  datatype Entry = Entry(key: StatKey, digest: Digest)

  /** Two seconds, in nanoseconds. */
  const RACY_WINDOW: i64 := 2_000_000_000

  datatype Cache<Path(==)> = Cache(recorded: i64, entries: map<Path, Entry>) {
    /** The entry for `p` is used without reading the file. */
    predicate Vouches(p: Path, key: StatKey, window: i64) {
      p in entries && entries[p].key == key && key.Newest() < SatSub(recorded, window)
    }
  }

  function NoCache<Path>(): Cache<Path> { Cache(0, map[]) }

  /** The start a decoded cache file records: the earlier of the host's reading and the
    * filesystem's, which is the file's mtime less the pass's duration. */
  function RecordedStart(host: i64, written: i64, elapsed: i64): i64 {
    var fs := SatSub(written, if elapsed < 0 then 0 else elapsed);
    if host <= fs then host else fs
  }
}
