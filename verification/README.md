# Verified core of the Rust runtime

A Dafny model of the parts of the Rust core that must never claim more than was read, with
proofs over all inputs, all runs or all interleavings.

- **Cut-off scan** (`pattern`, `matching`, `shape`, `language`, `scanner`, `filescan`). A file is read until a cap
  fires and then matched. The model has the pattern tree with ordered match ends, the analysis
  of what a pattern can still see past the bytes read, the windowed literal search, the lazy DFA
  as an abstract machine whose contract speaks of complete files only, the match loop, reading,
  and a scan over many files. What is listed at a cutoff is a prefix of whole-file matching for
  every unread remainder, and nothing is withheld that the bytes read decide: the analysis is
  exact about the texts a pattern can take.
- **Stat cache** (`statcache`, `racycache`, `hashpass`, `cachecodec`). Concurrent passes, edits
  and stores as a step system; the pass against hashing every file; the file format as an
  encoder and a streaming decoder.
- **Drift** (`drift`, `trackedtree`, `catfile`). Comparing listed and taken-in paths against
  comparing every file, why the listing is exact about the index and the worktree, and automatic
  baselines against HEAD.
- **Git streams** (`lines`, `batchreader`, `difftext`, `diffparser`, `diffprint`,
  `diffroundtrip`, `decimal`, `utf8`). The line splitter, the `cat-file --batch` reader and the
  diff parser, each independent of chunking, and printing as the parser's inverse.
- **Source key** (`framing`, `statuslist`, `sourcekey`, `identity`, `treekey`). The porcelain
  listing, the framed key and what equal keys say about the files of two working trees.
- **Hook JSON** (`jsonhook`, `jsonroundtrip`, `jsonrfc`). The hand-written writer and reader,
  against each other and against the grammar of RFC 8259.
- **Goals, inbox, intent** (`goals`, `text`, `inbox`, `intent`). The completion gate over every
  run, the queue between a reader thread and a requester, and budgeted batch classification.

Objects whose methods update fields are classes, loops are loops, and each is proved against a
specification function or relation; the properties are then proved of those. SHA-256 is a
parameter. Where collisions matter they are named in the conclusion rather than excluded.

Where code and comment disagree the code is followed. Properties that are false of the code are
stated with the input that shows it and the exact condition under which they hold:

- a reused file that opens but fails to read is still answered for (`HashPass.CachedIsDirect`,
  `HashPass.UnreadableIsReused`);
- a path taken into a baseline with HEAD's own content is called changed once it is clean
  (`Drift.ExactExactlyWhenTakenInDiffers`, `Drift.CleanAtMisleads`);
- a hunk whose heading is not UTF-8 is lost although Git prints headings as the file's bytes,
  and its content is read as header lines, which can even name a file that has no readable
  name (`DiffRoundTrip.ParseInvertsPrint`, `DiffRoundTrip.HunkKeptExactlyWhenHeadingIsUtf8`,
  `DiffRoundTrip.LatinHeadingLosesHunk`, `DiffRoundTrip.LostLineNames`);
- the hook's reader refuses escaped surrogate pairs, which the grammar reads
  (`JsonRfc.UnescapeExactly`, `JsonRfc.PairIsRefused`);
- evidence can be on an iteration and not on its goal when a write fails between the two files
  (`Goals.WholeRunsHold`, `Goals.SplitWrite`);
- completing a skipped goal again without a reason leaves a blank skip record
  (`Goals.BlankSkipExactly`, `Goals.BlankSkipHappens`).

The racy window is safe if and only if it covers the timestamp granularity plus the slack of the
recorded start (`RacyCache.SafeExactlyWhenWide`).

`dafny verify dfyconfig.toml` checks the project.

## Model

| member | source | states |
|---|---|---|
| `Pattern.FindIsLeftmost` | rust-core/src/exactscan.rs:746-794 | the search an iteration repeats is leftmost-first: no match starts before the one it finds, and its end is the preferred one; none is found exactly when no start matches |
| `Pattern.FindIterIsIteration` | rust-core/src/exactscan.rs:746-794 | the iteration emits ordered, non-overlapping preferred matches, never an empty one at the previous end, and no match starts in a gap; it ends by the measure (bytes left, whether an empty match was just taken at p) |
| `Pattern.IterationIsUnique` | rust-core/src/exactscan.rs:746-794 | that description leaves one list |
| `Pattern.WholeFileCharacterised` | rust-core/src/exactscan.rs:746-794 | a list is the file's answer if and only if it meets the description |
| `Pattern.IterStartsLate` | rust-core/src/exactscan.rs:746-794 | no occurrence of an iteration starts before the first match its search meets |
| `Matching.EndsAreMatches` | rust-core/src/exactscan.rs:12-18 | for every pattern, text and start the ordered ends are exactly the ends a match relation without an order allows (parts in turn, some alternative, some number of iterations): dropping an iteration that consumed nothing loses no match |
| `Matching.LoopOrder` | rust-core/src/exactscan.rs:12-18 | a loop over a part that matches in at most one way lists its ends longest first when greedy and shortest first when lazy, for every minimum and maximum |
| `Language.MatchSpells` | rust-core/src/exactscan.rs:517-526 | what any match takes is a text of the pattern |
| `Language.SpeltIsMatched` | rust-core/src/exactscan.rs:517-526 | and without assertions a text of the pattern is a match wherever it stands |
| `Language.TextIsBounded` | rust-core/src/exactscan.rs:529-539 | no text of the pattern is longer than its maximum length, and none holds a newline unless `consumes_newline` |
| `Language.LongText` | rust-core/src/exactscan.rs:529-539 | of a pattern whose classes are not empty some text is exactly that long, or longer than `usize` when there is no maximum |
| `Language.NewlineText` | rust-core/src/exactscan.rs:629-645 | and one that consumes newlines has a text that holds one |
| `Language.LookIsBounded` | rust-core/src/exactscan.rs:572-604 | no look-ahead assertion looks past the reach |
| `Language.FarLook` | rust-core/src/exactscan.rs:572-604 | and some look-ahead assertion looks exactly that far, one in a loop being taken to sit at the end of the loop |
| `Language.HorizonExactly` | rust-core/src/exactscan.rs:521-535 | the horizon is the least number of bytes that holds every text and every look |
| `Language.FinalExactly` | rust-core/src/exactscan.rs:541-547 | `final_at(s)` if and only if no text from s can take or look at a byte not read, or no text holds a newline and one is left after s |
| `Language.HorizonIsLongestMatch` | rust-core/src/exactscan.rs:529-539 | without assertions the horizon is the length of the longest match of any text, which some text has; no horizon means a match longer than any buffer |
| `Language.LineLocalExactly` | rust-core/src/exactscan.rs:524-538 | without assertions a pattern is line-local if and only if no match of any text holds a newline |
| `Shapes.ReachWithinLen` | rust-core/src/exactscan.rs:572-604 | a look-ahead assertion is never evaluated past the longest match, so the horizon covers it |
| `Shapes.EndsAgree` | rust-core/src/exactscan.rs:572-645 | the agreement theorem, by induction over the whole pattern tree: two files that agree on the bytes read have identical ordered match ends from every covered start, and the ends stay inside the cover, for a bounded horizon and for a line-local pattern alike, assertions included |
| `Shapes.ShapeSound` | rust-core/src/exactscan.rs:529-547 | if `final_at(s)` holds, any two files that begin with the bytes read have the same ordered match ends from every start at or before s |
| `Shapes.FinalFind` | rust-core/src/exactscan.rs:541-547 | a candidate the shape calls final is the whole file's next match, whatever follows |
| `Shapes.OpenFrontier` | rust-core/src/exactscan.rs:549-560 | with no final candidate in the bytes read, no possible file has a match from p that starts before `frontier` |
| `Scanner.Deadline.Expired` | rust-core/src/exactscan.rs:315-325 | a deadline stays fired once a check has found it passed |
| `Scanner.Work.Tick` | rust-core/src/exactscan.rs:350-358 | one unit per transition; the countdown restarts at 1024 and the clock is consulted exactly when it runs out, so once every 1024 transitions |
| `Scanner.VerdictSound` | rust-core/src/exactscan.rs:802-840 | answering with a complete search of the bytes read, filtered by the shape, is right about every possible file, and `Open` withholds nothing the shape calls final |
| `Scanner.WindowAnswers` | rust-core/src/exactscan.rs:802-840 | an answer found in a window that holds the longest literal is the whole text's answer |
| `Scanner.WindowSkips` | rust-core/src/exactscan.rs:802-840 | a window without one holds no start in its first 64 KiB |
| `Scanner.LiteralStep` | rust-core/src/exactscan.rs:802-840 | the windowed search equals one leftmost-first search of the whole buffer: at the end of the file that answer or none, at a cutoff only when final; it stops early only when the deadline fired |
| `Scanner.LiteralIsPattern` | rust-core/src/exactscan.rs:675-695 | searching one literal is searching the pattern it is |
| `Scanner.AnyOfIsPattern` | rust-core/src/exactscan.rs:500-515 | an alternation of literals is answered by its literal list in preference order |
| `Scanner.ForwardStep` | rust-core/src/exactscan.rs:893-935 | a dead state reached inside the bytes read is decided, with the answer of every extension; a search is pending only if it met no dead state on them, and has then answered for the bytes read only; it breaks only on a quit state |
| `Scanner.ReverseStep` | rust-core/src/exactscan.rs:940-990 | the reverse search gives the start that the complete reverse run gives, or none only when that run has none or quits |
| `Scanner.DecidedHit` | rust-core/src/exactscan.rs:845-872 | a decided end with its reverse start is every possible file's next match (derived from a contract on complete files only) |
| `Scanner.PendingHit` | rust-core/src/exactscan.rs:845-872 | an answer from a search alive at the cutoff is final exactly on the shape's word |
| `Scanner.DfaStep` | rust-core/src/exactscan.rs:845-872 | the lazy DFA's step is right about every possible file; it is open only if the automaton had not decided and the shape does not, and fails only where the engine gave up |
| `Scanner.Step` | rust-core/src/exactscan.rs:675-695 | the same for each of the three engines; the literal ones never fail |
| `FileScan.Tracker.Advance` | rust-core/src/exactscan.rs:1010-1024 | line and column along any rising offsets equal counting newlines from byte 0 |
| `FileScan.Listing.Emit` | rust-core/src/exactscan.rs:1105-1131 | an occurrence is listed with its position and capped length, or refused exactly at the line cap |
| `FileScan.OpenWithholdsNothing` | rust-core/src/exactscan.rs:746-794 | a list left unconfirmed has withheld nothing the bytes read decide: from the next occurrence they hold some text of the pattern can still take or look at a byte that was not read, with no newline to stop it (stated by the pattern's texts, not by its shape) |
| `FileScan.FrontierIsOpen` | rust-core/src/exactscan.rs:549-560 | the start a list is left open from is itself not decided by the bytes read |
| `FileScan.NextFinal` | rust-core/src/exactscan.rs:746-794 | one turn of the loop: the next occurrence of every possible file, or an outcome that is right about all of them |
| `FileScan.MatchBuffer` | rust-core/src/exactscan.rs:746-794 | cutoff finality: for every pattern, bytes read and unread remainder, what is emitted is a prefix of whole-file matching, nothing that starts before `from` is missing, and `Complete` means the list is all of it; unconfirmed only at a cutoff, from an undecided start, with nothing withheld that the bytes read or the automaton decide; interrupted if and only if the deadline fired, halted only where the engine gave up, stopped only at the line cap |
| `FileScan.OpenFile.ReadAt` | rust-core/src/exactscan.rs:1219-1232 | a positional read: some bytes at the offset, none only at the end of the file, or failure |
| `FileScan.Fill` | rust-core/src/exactscan.rs:1170-1215 | what was read is the file's beginning, `eof` means all of it, budget and `bytes_scanned` move together, and reading stops short only on a failure, a spent budget or the deadline |
| `FileScan.MatchFile` | rust-core/src/exactscan.rs:1094-1165 | matching the bytes read of a file: the outcome is right about the file that is there, and the spans appended are its occurrences' positions |
| `FileScan.Account` | rust-core/src/exactscan.rs:1132-1165 | one file's outcome: the byte cap is reported only with the bytes spent and a file left undecided or unread, the time cap when matching was interrupted; the scan goes on only with bytes left |
| `FileScan.Scan` | rust-core/src/exactscan.rs:1094-1165 | one file: remaining budget plus `bytes_scanned` stays `max_bytes`; the byte cap cuts only with nothing left of it and a file undecided or still to come, and then always does; the time cap if and only if the deadline fired; an `unconfirmed` record names the bytes read and its own cause; without cut or record exactly the whole-file occurrences are listed, and shortened ones counted |
| `FileScan.ScanSource` | rust-core/src/exactscan.rs:1047-1077 | opening and scanning one listed path, with the same causes for each cut; one that does not open is counted, never listed |
| `FileScan.ScanPaths` | rust-core/src/search.rs:1064-1101 | a partial scan never reads as complete: without cut and record every file was come to and every file read is listed in full; with one, every file before the last is; the byte cap is reported only when exactly `max_bytes` were read with a file undecided or not come to, the time cap if and only if the deadline fired, the line cap only at the line bound; spans, files opened, unread ones and shortened matches are counted file by file |
| `RacyCache.StepKeeps` | rust-core/src/hashcache.rs:241-340 | every step (tick, edit, begin, stat, read, store, drop) of concurrent passes and edits keeps the trust invariant |
| `RacyCache.RunKeeps` | rust-core/src/hashcache.rs:241-340 | so does every run |
| `RacyCache.WideWindowIsSafe` | rust-core/src/hashcache.rs:241-340 | in every run every reused digest is the hash of the file's present bytes, when the window covers granularity plus slack |
| `RacyCache.SafeExactlyWhenWide` | rust-core/src/hashcache.rs:241-340 | and only then: a narrower window has a run that reuses a wrong digest |
| `HashPass.HashOne` | rust-core/src/hashcache.rs:278-318 | one file: charged when it fits, reused when its entry is vouched for, read otherwise; bytes charged do not depend on which |
| `HashPass.UniqueKeepsOrder` | rust-core/src/hashcache.rs:250-259 | each path is hashed once and the caller's order is kept, so under a budget what comes first is charged first |
| `HashPass.EntriesTrue` | rust-core/src/hashcache.rs:295-318 | from a truthful cache every digest returned is the hash of the bytes there |
| `HashPass.HashFiles` | rust-core/src/hashcache.rs:241-340 | the pass against its specification: entries, digests, what was charged, what was racy, and that the cache file is rewritten exactly when it was invalid, an entry was racy or the entries differ |
| `HashPass.MoveEnd` | rust-core/src/hashcache.rs:241-340 | comparing entry by entry while taking them off the old map finds a difference exactly when the maps differ |
| `HashPass.CachedIsDirect` | rust-core/src/hashcache.rs:241-340 | from a truthful cache the pass returns exactly the map of hashing every file, budgeted or not, if and only if no reused file has become unreadable |
| `HashPass.UnreadableIsReused` | rust-core/src/hashcache.rs:295-313 | the input for which it does not: a file that opens and whose read would fail, on an input error say, is answered for from the cache |
| `HashPass.UnopenedIsSkipped` | rust-core/src/hashcache.rs:278-285 | a file that does not open, for want of permission say, is not answered for whatever the cache holds |
| `HashPass.CachesAgree` | rust-core/src/hashcache.rs:191-199 | two truthful caches give one map, budgeted or not, if and only if they reuse the same of the charged files whose read would fail; so with none such every two do |
| `HashPass.AnyCacheAgrees` | rust-core/src/hashcache.rs:176-199 | in every run the cache that stands is truthful, and a pass over the files as they stand, read failures included, returns the no-cache map if and only if no file it reuses fails to read |
| `HashPass.ReadableTreesAgree` | rust-core/src/hashcache.rs:176-199 | over files that can be read it always does, budgeted or not |
| `CacheCodec.RoundTrip` | rust-core/src/hashcache.rs:398-501 | parsing what encoding wrote gives the entries, the host start and the duration back |
| `CacheCodec.ParsedIsEncoded` | rust-core/src/hashcache.rs:451-501 | a file parses only if it is byte for byte what encoding its contents writes |
| `CacheCodec.LengthIsFixed` | rust-core/src/hashcache.rs:451-501 | no encoded file is a proper prefix of a file that parses |
| `CacheCodec.TruncatedIsRejected` | rust-core/src/hashcache.rs:451-501 | truncated files are rejected, whatever the checksum function |
| `CacheCodec.TrailingIsRejected` | rust-core/src/hashcache.rs:451-501 | so are files with bytes after their end |
| `CacheCodec.AlteredIsRejected` | rust-core/src/hashcache.rs:451-501 | a body altered under the old checksum is rejected unless the two sums agree |
| `CacheCodec.CountIsFixed` | rust-core/src/hashcache.rs:459-466 | a count other than the number of rows is rejected, under any checksum function and a recomputed checksum |
| `CacheCodec.OverlongPathIsRejected` | rust-core/src/hashcache.rs:468-472 | a path length past the bytes that are left is rejected after any rows, under a recomputed checksum |
| `CacheCodec.LastLengthIsFixed` | rust-core/src/hashcache.rs:468-491 | a length of the last path other than its own is rejected, under a recomputed checksum |
| `CacheCodec.HashingReader.ReadExact` | rust-core/src/hashcache.rs:503-521 | exactly n bytes, fed to the hasher as they are read, or nothing when the length given ends first |
| `CacheCodec.ReadRows` | rust-core/src/hashcache.rs:467-488 | the entry loop reads what the grammar says, or fails where the grammar does |
| `CacheCodec.Decode` | rust-core/src/hashcache.rs:451-501 | streaming decode equals parsing the first `len` bytes: nothing past them matters, and a repeated path keeps its last row |
| `CacheCodec.EncodeInto` | rust-core/src/hashcache.rs:398-427 | streaming encode equals the encoding, and fails exactly when a path is too long for its field |
| `CacheCodec.StoredIsLoaded` | rust-core/src/hashcache.rs:398-501 | parsing what was encoded gives exactly the rows, with recorded start equal to min(host start, file mtime less the duration) |
| `CacheCodec.SizeIsExact` | rust-core/src/hashcache.rs:374-384 | the size computed before writing is the length of the file written |
| `CacheCodec.Store` | rust-core/src/hashcache.rs:367-393 | a file is written exactly when its size is within 64 MiB, and is the encoding of the rows |
| `CacheCodec.Load` | rust-core/src/hashcache.rs:351-362 | no file, a file past the bound or one that does not parse, or its cache |
| `CacheCodec.StoreThenLoad` | rust-core/src/hashcache.rs:351-501 | through both streams: what a pass stores is what the next one loads, same entries and recorded start, or no file, exactly past the bound |
| `Drift.NextBatch` | rust-core/src/changetrack.rs:322-328 | a batch is within the byte bound, never empty, and as long as the bound allows |
| `CatFile.CatFileBlobs` | rust-core/src/changetrack.rs:250-291 | the parsing loop gives what the grammar reads of an output within the cap, and nothing of one past it |
| `CatFile.PrintedReads` | rust-core/src/changetrack.rs:266-291 | of any printed replies each blob's size, and its bytes when asked for, in order; failure exactly when a reply is missing or no blob |
| `CatFile.ShortIsRejected` | rust-core/src/changetrack.rs:268-287 | an output that ends short anywhere fails |
| `CatFile.OutputFits` | rust-core/src/changetrack.rs:295-334 | the cap of 128 bytes an object and the content's size never cuts an output off |
| `Drift.Ask` | rust-core/src/changetrack.rs:250-291 | asking about some objects gives each one's size and bytes, and fails exactly when one is not there |
| `Drift.ForEachHeadBlob` | rust-core/src/changetrack.rs:301-341 | through `git cat-file`: the batches cover each wanted blob once, in order, each within the byte bound; the content delivered is each blob's; it fails exactly when an object is missing or not a blob |
| `Drift.BuildBaseline` | rust-core/src/changetrack.rs:668-719 | an automatic baseline is exactly HEAD's regular files within the size cap whatever is dirty or staged; an explicit one is the worktree with the uncommitted paths recorded; it fails exactly when a HEAD blob cannot be read |
| `Drift.AutomaticIsCommitted` | rust-core/src/changetrack.rs:212-245 | dropping every uncommitted path and putting HEAD's blobs in gives the committed state, new, deleted, renamed and non-regular paths included |
| `Drift.EveryBaselineIsBuiltOn` | rust-core/src/changetrack.rs:668-719 | every baseline that was built holds the committed state outside what it took in |
| `Drift.CurrentHolds` | rust-core/src/changetrack.rs:919-945 | the comparison gathers exactly the listed and renamed-away paths, with what the tracked files hold there |
| `Drift.ListedRefinesFull` | rust-core/src/changetrack.rs:919-959 | with HEAD unmoved and a listing that is exact about the tracked files (`TrackedTree.ObservationIsExact`) the answer is: the full map differs from the baseline's, or a path taken in was reverted |
| `Drift.DifferingIsExact` | rust-core/src/changetrack.rs:919-959 | if each taken-in path's hash differs from HEAD's, listed and full comparison answer alike in every state |
| `Drift.CleanAtMisleads` | rust-core/src/changetrack.rs:949-955 | a path taken in with HEAD's own content: a state with an unchanged map that is called changed |
| `Drift.ExactExactlyWhenTakenInDiffers` | rust-core/src/changetrack.rs:919-959 | so the two answer alike in every exact state if and only if no path was taken in with HEAD's content |
| `Drift.GatherCurrent` | rust-core/src/changetrack.rs:919-945 | the gathering loop gives that comparison, or nothing exactly when some entry has no comparable hash |
| `Drift.ListedContentChanged` | rust-core/src/changetrack.rs:919-959 | the decision and the number of paths looked at, or nothing when the listing cannot decide |
| `TrackedTree.SaidIsTrue` | rust-core/src/changetrack.rs:899-911 | for everything that can stand at a path and every budget: the hash an observed content gives is that of the file there, and no entry is given only where the full map has none |
| `TrackedTree.SilentExactly` | rust-core/src/changetrack.rs:899-911 | a content gives no answer if and only if the observation did not get to read what is there: no budget left for it, or a read that fails |
| `TrackedTree.ObservationIsExact` | rust-core/src/changetrack.rs:913-945 | exactness derived: from what the status codes say of the index, the node at each path and the identity's classification under its budget, a listed entry says what the full map holds, a rename's source is not in it, and an unlisted path has HEAD's hash |
| `TrackedTree.SilentEntry` | rust-core/src/changetrack.rs:934-940 | an entry stops the check only when some observed content of its path gives no answer |
| `TrackedTree.DecidedWhenHeard` | rust-core/src/changetrack.rs:919-945 | at the top of the worktree, with a baseline that says what it took in and UTF-8 paths, the listing decides whenever every content gives an answer |
| `TrackedTree.DriftIsRight` | rust-core/src/changetrack.rs:919-959 | so of the repository itself: unchanged means the tracked files hash to the baseline, changed that they do not or that a path taken in is neither listed nor renamed away |
| `Drift.ContentChanged` | rust-core/src/changetrack.rs:961-996 | the listing answers only while HEAD has not moved and it can decide; unchanged then means the full maps are equal, and otherwise every tracked file is compared |
| `Lines.TwoParts` | rust-core/src/gitdiff.rs:339-365 | the lines of a stream are the same whether it comes whole or in two parts |
| `Lines.Splitter.Feed` | rust-core/src/gitdiff.rs:340-350 | after any chunk the lines delivered and the pending one are those of everything fed, capped |
| `Lines.Splitter.Finish` | rust-core/src/gitdiff.rs:359-365 | a last line without a newline is delivered |
| `Lines.SplitAll` | rust-core/src/gitdiff.rs:323-366 | however a stream is cut, its capped lines come out the same |
| `Lines.WrittenIsDelivered` | rust-core/src/gitdiff.rs:323-366 | lines written with a newline each come back, capped |
| `BatchReader.Batch.Feed` | rust-core/src/gitdiff.rs:1197-1244 | after any chunk the reader is where reading byte by byte leaves it; it fails exactly when the chunk ends in a header past 4096 bytes |
| `BatchReader.StreamRead` | rust-core/src/gitdiff.rs:1177-1244 | for every sequence of replies (blob, other object, missing) each blob's exact bytes within the cap, and nothing otherwise, in order |
| `BatchReader.NoCutFails` | rust-core/src/gitdiff.rs:1197-1244 | no chunking of replies with headers within the limit fails |
| `BatchReader.ForEachObject` | rust-core/src/gitdiff.rs:1129-1172 | success if and only if nothing is asked, or no chunk ends in a header past the limit and the child ended well or had answered everything; the calls of a success are those of the specification |
| `BatchReader.OncePerIndex` | rust-core/src/gitdiff.rs:1129-1172 | whatever the child printed, the calls of a success name every index exactly once |
| `BatchReader.EveryReplyArrives` | rust-core/src/gitdiff.rs:1129-1244 | a child that answers in full, however its output is cut and however it then ends: the run succeeds, each asked name's index is called exactly once with its own reply, and each name that cannot be asked exactly once with nothing |
| `DiffText.UnquoteOfQuote` | rust-core/src/gitdiff.rs:983-1026 | unquoting inverts Git's quoting, whatever follows the closing quote and under either core.quotePath: it gives the name back exactly when the name is UTF-8 |
| `DiffText.SideName` | rust-core/src/gitdiff.rs:957-968 | the `---`/`+++` line of a name, quoted or not, with or without a tab, gives the name; a quoted one that is not UTF-8 gives none |
| `DiffText.HeaderName` | rust-core/src/gitdiff.rs:970-981 | the `diff --git` line gives the name both sides share, or none when it is quoted and not UTF-8 |
| `DiffText.HunkReads` | rust-core/src/gitdiff.rs:934-955 | a printed hunk header gives its four numbers, a missing count meaning one, whatever heading follows |
| `DiffParser.Parser.Line` | rust-core/src/gitdiff.rs:821-872 | the parser object steps as the specification does on every line |
| `DiffParser.ParseDiff` | rust-core/src/gitdiff.rs:1032-1050 | splitting chunks and parsing lines gives the specification's answer on the joined bytes |
| `DiffRoundTrip.DiffParses` | rust-core/src/gitdiff.rs:810-912 | from a state with nothing owed every printed file is counted, those that end without a path as unreadable, and the others are given in order within the limit, whatever names, headings and content are |
| `DiffPrint.OpenLineParses` | rust-core/src/gitdiff.rs:834-845 | every printed `diff --git` line opens its own file; the name is read exactly when it is UTF-8, printed raw or quoted |
| `DiffRoundTrip.FileParses` | rust-core/src/gitdiff.rs:821-872 | a printed file fills its own record, whatever its name, and nothing of it reaches the file before |
| `DiffRoundTrip.WhoHasPath` | rust-core/src/gitdiff.rs:874-904 | a file with a UTF-8 name ends with a path; one without ends with none when its headings are read, and otherwise with the path, if any, that the last stray side line gave |
| `DiffRoundTrip.UnreadableName` | rust-core/src/gitdiff.rs:834-848 | a name that is not UTF-8: one more file counted, one more unreadable, and nothing else changed |
| `DiffRoundTrip.LostLineNames` | rust-core/src/gitdiff.rs:821-872 | the input that shows a stray line giving an unnamed file a path |
| `DiffRoundTrip.HunksParseEither` | rust-core/src/gitdiff.rs:821-872 | any run of printed hunks adds those with a UTF-8 heading, in order; the content of the others is read as lines no hunk owns, which give the side names and nothing else |
| `DiffPrint.ContentParses` | rust-core/src/gitdiff.rs:821-840 | the content a hunk owes is counted off whatever it says, lines that look like headers and no-newline markers included |
| `DiffRoundTrip.ParseInvertsPrint` | rust-core/src/gitdiff.rs:810-979 | parse inverts print: for every list of file diffs, any names, content and headings, any chunking and either core.quotePath, `total` is the number of files, `unreadable` the number that end without a path, and the others come in order within the limit, each said exactly; within the limits all come back with path, change kind and hunks as printed if and only if every name, heading and binary note is UTF-8 |
| `DiffRoundTrip.HunkKeptExactlyWhenHeadingIsUtf8` | rust-core/src/gitdiff.rs:821-872 | a printed hunk is kept if and only if the heading Git prints after it is UTF-8 |
| `DiffRoundTrip.LatinHeadingLosesHunk` | rust-core/src/gitdiff.rs:821-872 | the input that loses one: a Latin-1 byte at the end of a heading |
| `Framing.FieldInjective` | rust-core/src/indexcache.rs:565-568 | a length-prefixed field comes off the front of a stream in one way only |
| `Framing.FramedInjective` | rust-core/src/indexcache.rs:906-910 | a list of fields determines its members |
| `StatusList.PorcelainParser.Push` | rust-core/src/indexcache.rs:315-336 | one record completes a waiting rename, is skipped, waits, or is an entry |
| `StatusList.ParsePorcelain` | rust-core/src/indexcache.rs:346-354 | the loop gives the entries of all records, a rename cut off at the end included |
| `StatusList.ParseInvertsPrint` | rust-core/src/indexcache.rs:308-354 | parsing what Git prints gives the entries back, paths byte for byte, each rename with its origin |
| `StatusList.StatusWalk.Entry` | rust-core/src/indexcache.rs:903-917 | after any entries: every tracked one kept, the first 10000 untracked kept, the rest counted and their paths folded in order; ignored ones never enter |
| `StatusList.StatusWalk.IgnoredDirEntry` | rust-core/src/indexcache.rs:921-931 | ignored directories are held exactly while all of them are within both bounds |
| `StatusList.StatusWalk.Record` | rust-core/src/indexcache.rs:897-901 | a record moves parser and walk together |
| `StatusList.StatusWalk.IgnoredDirs` | rust-core/src/indexcache.rs:940-944 | the ignored directories are reported exactly when they are within the bounds and all UTF-8 |
| `StatusList.IgnoredListing` | rust-core/src/indexcache.rs:845-861 | the listing's own check agrees with the walk's bounds |
| `StatusList.WalkRecords` | rust-core/src/indexcache.rs:999-1006 | a streamed listing ends with the walk over exactly the parsed entries |
| `SourceKey.RowsInjective` | rust-core/src/indexcache.rs:1187-1208 | status entries with origins and tokens, one after another, and what closes them are told apart in one way only |
| `SourceKey.StreamInjective` | rust-core/src/indexcache.rs:1046-1257 | equal streams are equal observations: root, HEAD, entries in order, paths past the bound; or the two path lists collide |
| `SourceKey.KeyInjective` | rust-core/src/indexcache.rs:1046-1257 | equal keys are equal observations, or an explicit hash collision is named |
| `SourceKey.KindsApart` | rust-core/src/indexcache.rs:1046-1083 | an observed tree's stream is never that of a failed status or of a tree without Git |
| `Identity.SortSorts` | rust-core/src/indexcache.rs:1114-1119 | the entries' order is a sorted permutation: tracked before untracked, then by path |
| `Identity.SortIgnoresOrder` | rust-core/src/indexcache.rs:1114-1119 | the order in which a listing names distinct entries leaves no trace in the key |
| `Identity.TokenTells` | rust-core/src/indexcache.rs:1190-1208 | the token of known content is the token of nothing else |
| `Identity.BudgetsAgree` | rust-core/src/indexcache.rs:1150-1186 | the contents of a tree under two budgets never disagree: an entry known under both has one content, and one known under one only is unhashed under the other |
| `Identity.FoldEntry` | rust-core/src/indexcache.rs:1142-1236 | one entry: the bytes fed, the budget, the limitations, the files and bytes hashed and the counts move together |
| `Identity.FoldEntries` | rust-core/src/indexcache.rs:1142-1236 | the whole loop: the stream fed is the rows', one limitation for each entry not identified, every entry counted once |
| `Identity.IdentityOf` | rust-core/src/indexcache.rs:1025-1260 | the key is the hash of the observation's stream in all three outcomes; `identity_complete` if and only if both listings were whole, nothing is past the bound and every content is known; the bytes hashed stay within the budget |
| `TreeKey.KnownExactly` | rust-core/src/indexcache.rs:1150-1186 | an entry's content is known if and only if the pass answered for the file, it is a repository, or budget is left and the path is free, a readable link or a readable file that fits |
| `TreeKey.KnownTells` | rust-core/src/indexcache.rs:1150-1186 | and a known content is the digest of the bytes or link target there, the repository's token, or says that nothing is there |
| `Identity.SameKeySameSources` | rust-core/src/indexcache.rs:1025-1260 | equal keys of two observed trees: same root, HEAD and entries, and the same content wherever either knows it; or a collision of the streams or of the lists past the bound |
| `TreeKey.SameKeySameDigests` | rust-core/src/indexcache.rs:1154-1159 | then also the same digest wherever the pass returned one for both |
| `TreeKey.SameKeySameFiles` | rust-core/src/indexcache.rs:1025-1260 | and the same file bytes, link target, repository or absence at every path where either knows what stands there, or two byte strings that share a digest |
| `TreeKey.EditShows` | rust-core/src/indexcache.rs:1120-1186 | through the hashing pass, whatever truthful caches it started from: trees that differ at an entry's path have different keys, but for a collision |
| `Identity.SameBytes` | rust-core/src/indexcache.rs:1150-1186 | contents that are the hashes of bytes, in trees with the same sources: the bytes are equal or are themselves a collision |
| `Identity.KeyIgnoresCache` | rust-core/src/indexcache.rs:1120-1140 | any two truthful caches give the pass one map if and only if they reuse the same of the files whose read would fail, which is always so when none would, and then one key; when pass and fold see one tree, one key if and only if so, or a collision |
| `JsonHook.JsonString` | rust-core/src/cursorhook.rs:219-242 | the writer's loop gives the escaped literal, which `JsonRfc.WrittenDenotes` reads by the grammar alone |
| `JsonRfc.WrittenDenotes` | rust-core/src/cursorhook.rs:216-242 | the literal written for any text denotes that text by section 7 of RFC 8259, to any reader: plain characters, the two-character escapes with their code points, and four-digit units |
| `JsonHook.Render` | rust-core/src/cursorhook.rs:188-214 | nothing for an empty answer, else the object of its members in order, which `JsonRfc.AnswerDenotes` reads by the grammar alone |
| `JsonRfc.AnswerDenotes` | rust-core/src/cursorhook.rs:186-214 | what is sent is, by sections 4 and 7 of RFC 8259, the object of exactly the answer's fields in order |
| `JsonRoundTrip.EscapedEnd` | rust-core/src/cursorhook.rs:388-399 | an escaped text ends at the quote after it, whatever it holds and whatever follows |
| `JsonRoundTrip.UnescapeOfEscape` | rust-core/src/cursorhook.rs:270-300 | the program's own reader gives back every text its writer wrote |
| `JsonRoundTrip.TextPassed` | rust-core/src/cursorhook.rs:343-377 | any written value, however deep, leaves the bracket count where it was |
| `JsonHook.JsonStringEnd` | rust-core/src/cursorhook.rs:388-399 | the index loop finds that end |
| `JsonHook.ValueEndFrom` | rust-core/src/cursorhook.rs:343-377 | the value scanner's loops equal their specification at every offset |
| `JsonHook.TopLevelMember` | rust-core/src/cursorhook.rs:305-338 | the member walk equals its specification, missing and malformed bodies included |
| `JsonHook.JsonUnescape` | rust-core/src/cursorhook.rs:270-300 | the unescaping loop equals its specification, unknown escapes rejected |
| `JsonRfc.UnescapeExactly` | rust-core/src/cursorhook.rs:270-300 | on every literal without raw control characters or quotes and without a sign after `\u` the reader gives a text if and only if the grammar does and no surrogate is escaped |
| `JsonRfc.PairIsRefused` | rust-core/src/cursorhook.rs:287-294 | what it refuses of the grammar: every escaped surrogate pair denotes a character and is not read |
| `JsonHook.JsonMember` | rust-core/src/cursorhook.rs:259-264 | the reader as a whole equals its specification |
| `JsonRoundTrip.ObjectRoundTrip` | rust-core/src/cursorhook.rs:259-338 | reading a key of any written object gives the top-level string written for it, or nothing: keys in nested values never shadow it |
| `JsonRoundTrip.AnswerRoundTrip` | rust-core/src/cursorhook.rs:188-264 | each of the three keys the program's own reader takes from a rendered answer gives exactly that field, absent ones included |
| `Goals.NormalizedVerifies` | rust-core/src/goalruntime.rs:881-903 | normalizing evidence neither makes nor unmakes a verification |
| `Goals.NormalizeEvidence` | rust-core/src/goalruntime.rs:881-903 | the loop normalizes every item and keeps whether any verifies |
| `Goals.FirstFree` | rust-core/src/goalruntime.rs:567-573 | the open-ended counter ends, by pigeonhole over the identifiers given out, at the least free number |
| `Goals.UniqueGoalId` | rust-core/src/goalruntime.rs:549-574 | the identifier is the slug, the slug with the time, or the first free numbered one, and is always new |
| `Goals.AnyVerification` | rust-core/src/goalruntime.rs:121-133 | whether some evidence verifies |
| `Goals.Workspace.CreateGoal` | rust-core/src/goalruntime.rs:731-777 | a create adds one draft goal under a new identifier or changes nothing, with the reason; what is on disk when a write fails |
| `Goals.Workspace.AppendIteration` | rust-core/src/goalruntime.rs:781-823 | an append adds the normalized evidence to the iteration and then to the goal, or changes nothing; what is on disk when a write fails |
| `Goals.Workspace.UpdateStatus` | rust-core/src/goalruntime.rs:827-879 | an update runs the gate on completion, records a skip, and sets or clears the completion time |
| `Goals.StepKeeps` | rust-core/src/goalruntime.rs:731-879 | every operation, whichever of its writes fails, keeps: distinct identifiers, a completion time exactly while complete, and evidence (own or an iteration's) or a reasoned skip behind every complete goal |
| `Goals.RunKeeps` | rust-core/src/goalruntime.rs:731-879 | so does every run from an empty workspace, failed writes included |
| `Goals.RunGrows` | rust-core/src/goalruntime.rs:731-879 | from any moment to any later one no goal, evidence or iteration is lost or reordered |
| `Goals.GateIsExact` | rust-core/src/goalruntime.rs:478-500 | a completion is refused by the gate if and only if the goal is there, not complete, unverified by its own evidence and its iterations', and no reason is given |
| `Goals.CompleteIsBacked` | rust-core/src/goalruntime.rs:838-865 | in every run a goal has a completion time exactly while complete, and then verification, its own or an iteration's, or a skip with a reason |
| `Goals.WholeRunsHold` | rust-core/src/goalruntime.rs:781-823 | in runs whose writes succeed a goal's evidence holds all its iterations brought |
| `Goals.SplitWrite` | rust-core/src/goalruntime.rs:806-822 | the run in which a write failed between the two files: evidence on the iteration only, and the gate open |
| `Goals.BlankSkipExactly` | rust-core/src/goalruntime.rs:841-865 | a skip record without a reason is left exactly when an unverified complete goal is completed again without one and written |
| `Goals.BlankSkipHappens` | rust-core/src/goalruntime.rs:841-865 | a run that leaves one: create, complete with a reason, complete again without |
| `Inbox.StepKeeps` | rust-core/src/lsp_session.rs:195-293 | every step of reader or requester keeps the accounting invariant |
| `Inbox.EveryInterleavingIsSound` | rust-core/src/lsp_session.rs:195-293 | in every interleaving: the counter is the queued sizes plus what each side has in flight, never underflows or passes its bound; the queue keeps its length bound; delivery is in order; until the flag is set nothing parsed is missing |
| `Inbox.OverflowSticks` | rust-core/src/lsp_session.rs:253-260 | the overflow flag, once set, stays |
| `Inbox.MissingMeansOverflow` | rust-core/src/lsp_session.rs:195-234 | a parsed frame that is nowhere on the way was dropped with the flag set |
| `Inbox.QuietRunsDropNothing` | rust-core/src/lsp_session.rs:195-234 | and the flag has a cause: in a run whose undelivered frames always fit both bounds, with no malformed frame, it is never set and no frame is dropped |
| `Intent.ValidateRequest` | rust-core/src/intent.rs:279-328 | no error if and only if the request is within every bound; which error is reported first |
| `Intent.DecisionIsExact` | rust-core/src/intent.rs:253-276 | the count and membership tests accept exactly the decisions over the candidates' ids with probabilities |
| `Intent.Decide` | rust-core/src/intent.rs:124-133 | both sides of a provider call are checked |
| `Intent.QueryBudget.Reserve` | rust-core/src/intent.rs:142-152 | a reservation succeeds exactly while both caps allow it, and only then is charged |
| `Intent.CutBatches` | rust-core/src/intent.rs:198-217 | batches are within every bound and, one after another, are the candidates in order without those dropped, none twice; each is a run of the candidates that the next one could not join, or the last run; none is dropped that a request of its own could hold, and with a serializer under which longer lists are not shorter the dropped are exactly the others |
| `Intent.AskBatches` | rust-core/src/intent.rs:218-250 | complete if and only if nothing was dropped, every batch was asked and every answer was valid; it stops short only on a spent budget or an unanswered call; a provider error other than a question too large, or an answer out of its terms, leaves no probabilities whatever the error says, and otherwise exactly the answered calls' are kept; every probability is one the provider gave; the bytes reserved are the sizes of the requests made |
| `Intent.DecideBatched` | rust-core/src/intent.rs:164-250 | one stage: complete exactly without error, then over exactly the candidate ids; each reservation is one provider call within every bound, and the bytes reserved are those calls' sizes; what is kept is as for the batches |
| `Intent.RunStages` | rust-core/src/intent.rs:155-250 | stages sharing a budget: the calls of all stages together are at most two and their request sizes at most 128 KiB, whatever the provider answers, and every stage's answer is sound about its own calls |

## Left out

- regex-automata, aho-corasick, memmem and regex-syntax are contracts: a complete search is leftmost-first in its span, a quit state is a failure, `maximum_len` is computed as regex-syntax documents it. Unicode word boundaries are refused when a pattern is compiled and are not in the tree.
- Which patterns become a literal set, and compiling a query, are not modelled; the set engine is assumed to be given an exact set (`Scanner.AnyOfIsPattern` shows it for alternations of literals).
- Language.FinalExactly: for patterns none of whose classes is empty; with an empty class the shape is still sound but may call less final than it could. A look-ahead assertion inside a loop is taken to sit at the end of the loop's last iteration, as the code takes it.
- Buffers are at most `isize::MAX` bytes on a 64-bit host; a byte cap above that is not modelled.
- Files do not change while a scan reads them, except in length: what a descriptor holds is fixed when it is read.
- HashPass.HashFiles: the hash map is a map; the order in which rows are written is not modelled, nor are locks and atomic renames.
- Drift.ForEachHeadBlob: the child's output is what Git prints for an object store; spawning it and its timeout are not modelled. Signatures and symbols of a baseline are left out.
- TrackedTree.ObservationIsExact: what Git's status codes say of the index and the worktree is a stated meaning (`TrackedTree.Means`); content filters such as line-ending conversion, under which a clean file's bytes are not its blob's, are not modelled.
- DiffRoundTrip.ParseInvertsPrint: for header lines within the line cap, with content lines cut as the splitter cuts them; binary patch data and combined diffs are not printed.
- BatchReader.Batch.Feed: a header past 4096 bytes may still be read when no chunk ends inside it; the exact rule is stated, independence of chunking holds for headers within the limit.
- BatchReader headers are split on bytes; the lossy decoding of a header that is not UTF-8 is not modelled.
- Identity.IdentityOf: what the filesystem shows is one snapshot; nested repository tokens, link targets and metadata text are inputs, and the root is its displayed text.
- Identity.SortSorts: the library's stable sort is an insertion sort here.
- JSON offsets count characters; the delimiters are ASCII, so bytes would give the same texts. `JsonRoundTrip.ObjectRoundTrip` writes values without space between tokens.
- Goals: the lint's verdict on a text, the slug of a title and the clock are inputs; fields that are only copied, the ledger's text and file locking are left out. A file is written whole or not at all.
- Intent: provider input is measured by a length function standing for the serializer; fixtures are one kind of provider.
- Inbox: frame parsing, timeouts and the reply to server requests are events of the step system.
- Git children, process spawning, timeouts, pipes, SHA-1 and SHA-256, clocks and error texts.
- Symbol extraction, LSP and ast-grep payloads, diagnostics, the signal scanner, ownership, secret paths, dispatch, the frontend and scripts: field copying, heuristics or glue that would only add easy members.
