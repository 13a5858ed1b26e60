# A verified model of the nixdex core

nixdex indexes every file of every Nix package and searches that index. This project models the
parts of `nixdex-core` where correctness is not visible in any single function, and proves what
they promise over all inputs and all runs:

* the concurrent closure crawl, as a state machine with one step per atomic action, and what it delivers for each hash
  (`Crawl*.dfy`);
* the prefix-differential stream format, its encoder, and the decoder that compacts its buffer in
  place and can stop in the middle of an entry (`Frcode*.dfy`, entries and trees in `Files.dfy`);
* the search of a stream block by block (`SearchSpec.dfy`, `FrameSearch.dfy`, `StreamSearch.dfy`,
  `PackageSearch.dfy`) and the scan that rebuilds packages from it (`PackageScan.dfy`);
* the framed database: cutting, mapping, seek table, and the search that opens only the frames it
  needs (`FrameRanges.dfy`, `FrameWriter.dfy`, `SeekTable.dfy`, `FrameMapFile.dfy`, `Database.dfy`,
  `DatabaseRoundTrip.dfy`);
* the sidecar indexes and the fast searches built on them (`Postings.dfy`, `Blobs.dfy`, `PathIndex.dfy`,
  `BasenameIndex.dfy`, `EntryIndex.dfy`, `Trigrams.dfy`, `Ngrams.dfy`, `CommandIndex.dfy`, `PathTable*.dfy`,
  `LiteralSearch.dfy`, `FastEqualsScan.dfy`), the cache in front of them (`NgramCache.dfy`), and the literals taken
  from regexes (`RegexLiteral.dfy`);
* the search plan that chooses among all of these, the order and the limit of its results, and for which queries
  they are those of a full scan (`SearchPlan.dfy`, `ResultOrder.dfy`, `PlainQueries.dfy`), and all of it in a row, from
  packages over the written files to results (`WholeSearch.dfy`);
* the segmented download (`Segments.dfy`, `Prebuilt.dfy`);
* the bytes of every file format, spelled out (`Layouts.dfy`).

Code that works by changing things step by step is modelled as classes and methods with loops, each
proved against a specification; recursion and expressions are modelled as functions. Libraries appear
only through what they promise: JSON, postcard, zstd and roaring as round trips, `fst::Map` and
`BTreeMap` as sorted maps, regexes as predicates, fetches as fixed functions of the path, and the HTTP server
as an arbitrary answer to every request. `dafny verify dfyconfig.toml` checks everything.

## What the proofs turned up

* **A second flush always fails.** The check at database.rs:515-533 looks a package up in the
  boundaries of the current chunk by its ordinal in the whole database, so `flush_chunk` succeeds exactly
  once on a non-empty chunk (`FrameWriter.Writer.FlushChunk`). `maybe_flush_chunk` in index.rs:570-580
  makes a second flush reachable.
* **The last round of a segmented download is wasted.** The attempt counter is checked before the
  parts are, so the answers of the first two rounds decide the download (`Prebuilt.ThirdRoundIsWasted`).
* **The first segment is never length-checked.** With a server that honours If-Range a successful download is
  the resource exactly when the body of the probe was complete (`Prebuilt.TrySegmentedDownload`,
  `Prebuilt.ShortProbeUnnoticed`).
* **Segments can be about half the documented minimum** (prebuilt.rs:243-245). `Segments.DocumentedMinimum`
  gives the exact condition under which the comment holds.
* **Prefix extraction is unsound through groups that repeat.** `(ab*)cd` matches `abcd` but yields `acd`
  (`RegexLiteral.RepeatingGroupMisses`); `RegexLiteral.PrefixSound` and `RegexLiteral.SuffixSound` give a condition on the
  syntax tree under which extraction is sound.
* **A name asked for to the end of the path finds other names too.** `-w bin/ls` is answered from the entry index with every
  file named `ls`, also `/lib/ls`: nothing checks the path again (database.rs:1371-1397, `PlainQueries.WholeNameElsewhere`).
  `-w hello`, which has no slash, finds `hello` anywhere in a path, since prefix and suffix of its regex coincide
  (database.rs:1242-1264). `--at-root -w bin/ls`, without the leading slash, finds `/bin/ls` in the path table and nothing
  in a scan. `PlainQueries.ReliableExactly` gives the exact condition on the query under which the fast searches look for
  the matching paths; under it the results are those of the full scan (`PlainQueries.SearchPlain`), and any other query
  goes astray on a database with a single entry (`PlainQueries.SearchAstray`). The paths meant are those that the writer
  stores for some tree (`PlainQueries.ProperExactly`); names may be empty, as the parser of listings lets them be.
* **Cache keys of different patterns can coincide, and it does no harm.** A key joins the patterns with NUL bytes, but calls with
  the same key and an answer to cache have the same answer, because no path holds a NUL (`NgramCache.KeysAgree`).
* **Some package names can be written but not read.** `write_package_names` accepts names over 64 KiB, which
  `parse_name_ranges` refuses (`BasenameIndex.LongNameUnreadable`).
* **`lookup_entries_by_id` reports an error for an id that does not exist**; its comment
  (path_entry_index.rs:408-411) promises an empty list. The model follows the code.

## Model

| member | source | states |
|---|---|---|
| CrawlCounting.CountsKept | crates/nixdex-core/src/listings.rs:281-303 | every step of feeder, dispatcher, worker or consumer keeps `in_flight` equal to queued, popped, unfinished and counted-but-unpushed entries, and the permits equal to `jobs` minus the active workers |
| CrawlCounting.AwakeKept | crates/nixdex-core/src/listings.rs:281-331 | every step keeps the promise that a dispatcher about to wait without a permit will still be notified |
| CrawlCounting.QuietMeansCompleted | crates/nixdex-core/src/listings.rs:291-333 | no lost wakeup and no deadlock: a state in which no task can move has the dispatcher stopped on an empty queue, every worker finished and everything received |
| CrawlContent.CarriedOnceKept | crates/nixdex-core/src/listings.rs:411-430 | every step keeps each seen hash carried by exactly one entry and each unseen hash by none |
| CrawlContent.SeenRightKept | crates/nixdex-core/src/listings.rs:256-280 | every step keeps the `seen` entry of an input hash equal to the first main program and the joined toplevel flag of its input entries |
| CrawlContent.HoldingsRightKept | crates/nixdex-core/src/listings.rs:369-443 | every step keeps each entry and each worker phase in agreement with the fetches of its path, and every reference already passed seen |
| CrawlContent.SentRightKept | crates/nixdex-core/src/listings.rs:314-323 | every step keeps the items sent equal, with multiplicity, to the outcomes of the finished workers |
| CrawlTheorems.RunInvariant | crates/nixdex-core/src/listings.rs:229-336 | all invariants hold after any legal run of steps |
| CrawlTheorems.CountersExact | crates/nixdex-core/src/listings.rs:236-366 | in every reachable state `in_flight` is exact, active workers and permits left are max(1, jobs) together, and a worker with an item only waits for a channel that holds twice as many |
| CrawlTheorems.StoppedMeansClosureProcessed | crates/nixdex-core/src/listings.rs:291-333 | whenever the dispatcher has stopped, `seen` is the least set with the input hashes closed under followed references, and each of its hashes was handled by exactly one worker |
| CrawlTheorems.RootsKeepTheirEntry | crates/nixdex-core/src/listings.rs:256-288 | an input hash is processed with its first input entry and the first main program named for it, whatever the interleaving |
| CrawlTheorems.CompleteRunDelivers | crates/nixdex-core/src/listings.rs:291-336 | a run that cannot be extended has delivered the outcome of every hash of the closure exactly once, and nothing else |
| CrawlDelivery.CrawlDelivers | crates/nixdex-core/src/listings.rs:367-443 | said of input and fetches alone, what a complete run delivers for a hash: the listed tree; for a path or listing that is missing a tree of just `/bin/<name>`, if the first main program that the input names is a plain file name; nothing otherwise, and nothing when a fetch failed |
| CrawlDelivery.NothingElseDelivered | crates/nixdex-core/src/listings.rs:291-336 | every delivered path has a hash of the closure |
| CrawlTheorems.StepPays | crates/nixdex-core/src/listings.rs:256-443 | over a finite set of hashes every step lowers a potential |
| CrawlTheorems.RunsAreBounded | crates/nixdex-core/src/listings.rs:256-443 | termination: the length of any run is bounded by the potential of the initial state |
| Files.ToList | crates/nixdex-core/src/files.rs:324-345 | the stack-driven listing equals, as a multiset, the recursive listing filtered by the prefix |
| Files.Visit | crates/nixdex-core/src/files.rs:329-342 | one turn moves exactly one node and its children from the stack to the result |
| Files.MetaRoundTrip | crates/nixdex-core/src/files.rs:176-218 | metadata of every node decodes to the node, decimal sizes included |
| Files.DecodesExactly | crates/nixdex-core/src/files.rs:200-218 | metadata is read as a node exactly when it is a link target and `s`, or a decimal number of 64 bits, zeros and one plus sign allowed before it, and `x`, `r` or `d` |
| Files.MetaIsClean | crates/nixdex-core/src/files.rs:176-232 | encodable entries have metadata without NUL and newline that never reads as a package footer |
| Files.EntryRoundTrip | crates/nixdex-core/src/files.rs:243-270 | the line of an encodable entry decodes to the entry |
| Files.DecodesEntries | crates/nixdex-core/src/files.rs:254-270 | a line is read as an entry exactly when it is such metadata, the first zero byte and the path |
| Layouts.MetaLayout | crates/nixdex-core/src/files.rs:176-198 | metadata byte for byte: a decimal size and `x`, `r` or `d`, or a link target and `s` |
| FrcodeFormat.DiffRoundTrip | crates/nixdex-core/src/frcode.rs:224-242 | reading a printed differential gives the number and consumes exactly its one or three bytes, for all 16-bit differences |
| Layouts.DiffLayout | crates/nixdex-core/src/frcode.rs:405-416 | one signed byte for differences below 127 in size, and otherwise 0x80 and a signed big-endian word |
| Layouts.DiffReadLayout | crates/nixdex-core/src/frcode.rs:224-242 | whatever bytes follow, 0x80 announces a signed big-endian word and any other byte is a signed one; only too few bytes are no differential |
| Layouts.LineLayout | crates/nixdex-core/src/frcode.rs:433-461 | metadata, a zero byte, the differential, the unshared path and a newline |
| Layouts.FooterLayout | crates/nixdex-core/src/frcode.rs:463-481 | a package without entries is printed as `p`, two zero bytes, its JSON and a newline |
| FrcodeFormat.SharedLen | crates/nixdex-core/src/frcode.rs:433-450 | the shared length is the longest common prefix, cut off at 32767 |
| Layouts.SharedLayout | crates/nixdex-core/src/frcode.rs:433-450 | equal bytes are counted up to the first difference, and never beyond 32767 |
| FrcodeEncoder.Encoder.Create | crates/nixdex-core/src/frcode.rs:392-403 | a footer with a reserved byte is refused, and otherwise the encoder starts empty |
| FrcodeEncoder.Encoder.EncodeDiff | crates/nixdex-core/src/frcode.rs:405-416 | appends the short or long form of the differential |
| FrcodeEncoder.Encoder.WriteMeta | crates/nixdex-core/src/frcode.rs:422-427 | appends metadata, or refuses a reserved byte and writes nothing |
| FrcodeEncoder.Encoder.WritePath | crates/nixdex-core/src/frcode.rs:433-461 | appends NUL, the change of the shared length, the unshared rest and a newline, and remembers path and length |
| FrcodeEncoder.Encoder.CommonLen | crates/nixdex-core/src/frcode.rs:438-446 | the counting loop finds the clamped longest common prefix |
| FrcodeEncoder.Encoder.WriteFooter | crates/nixdex-core/src/frcode.rs:463-481 | prints the footer, which shares nothing, once |
| FrcodeEncoder.EncodePackage | crates/nixdex-core/src/frcode.rs:386-486 | a package is printed, or refused exactly when some byte of it is reserved |
| FrcodeDecoder.ResizableBuf.EnsureLen | crates/nixdex-core/src/frcode.rs:80-95 | grows by doubling only when allowed, keeps the contents, and reports whether there is room |
| FrcodeDecoder.Decoder.CopySharedPrefix | crates/nixdex-core/src/frcode.rs:131-177 | repeats the shared prefix, stops when there is no room, or reports a length out of range, without leaving the buffer |
| FrcodeDecoder.Decoder.ReadToNul | crates/nixdex-core/src/frcode.rs:183-222 | takes the input up to its next NUL, or all of it, or stops at a full buffer |
| FrcodeDecoder.Decoder.DecodePrefixDiff | crates/nixdex-core/src/frcode.rs:224-242 | consumes exactly one differential |
| FrcodeDecoder.Decoder.Compact | crates/nixdex-core/src/frcode.rs:252-263 | shifting the buffer in place changes nothing of what has been decoded |
| FrcodeDecoder.Decoder.DecodeEntries | crates/nixdex-core/src/frcode.rs:276-324 | entries are taken until buffer or input stops them, and the buffer stays the tail of the decoded text |
| FrcodeDecoder.Decoder.Decode | crates/nixdex-core/src/frcode.rs:251-362 | on any input all positions stay in range and the call ends; on a regular stream it succeeds with exactly the next lines, and with nothing only at the end |
| FrcodeBlocks.CutCorrect | crates/nixdex-core/src/frcode.rs:326-362 | wherever a call stops, also inside an entry, the cut is behind the last whole line and loses nothing |
| FrcodeBlocks.CutSays | crates/nixdex-core/src/frcode.rs:328-364 | on any buffer: when a block is handed out, when nothing is, and when a newline or a NUL is missing |
| FrcodeRoundTrip.PrintedStandsForLines | crates/nixdex-core/src/frcode.rs:386-486 | printed packages are a regular stream that stands for all their lines in order, footers included, also beyond the 32767 clamp |
| FrcodeStream.DecodeAll | crates/nixdex-core/src/frcode.rs:251-362 | decoding to the empty block gives blocks of whole lines that join to everything the stream stands for, for every starting capacity |
| FrcodeStream.EncodeThenDecode | crates/nixdex-core/src/frcode.rs:107-486 | the round trip through both classes, which fails exactly on reserved bytes |
| SearchSpec.ScanConcat | crates/nixdex-core/src/database.rs:2163-2320 | the one-pass search is a fold, so cutting the lines anywhere changes nothing |
| SearchSpec.PendingMeansUnclosed | crates/nixdex-core/src/database.rs:2321-2323 | entries are left without a package exactly when a matching entry follows the last footer |
| SearchSpec.EntryOnMeans | crates/nixdex-core/src/database.rs:2256-2275 | a matching line gives the entry whose line it is when its path matches alone; without a zero byte, or with metadata that is none and a matching path, it fails the search |
| TextLines.LineBounds | crates/nixdex-core/src/database.rs:1971-1976 | around a position the newlines before and after delimit exactly its line |
| FrameSearch.NextMatchingLine | crates/nixdex-core/src/database.rs:1954-1989 | finds the first line that matches, also when the line searcher only proposes candidates, and nothing only when none does |
| FrameSearch.IndexFooters | crates/nixdex-core/src/database.rs:2181-2196 | indexes every footer of a block with its ordinal, and overflows exactly when the ordinals run out |
| FrameSearch.FrameSearcher.ResolveCarried | crates/nixdex-core/src/database.rs:2198-2221 | carried entries go to the first footer of the block and are reported or dropped as that package passes |
| FrameSearch.FrameSearcher.AdvanceFooter | crates/nixdex-core/src/database.rs:2246-2254 | the running footer index is the number of footers up to the line |
| FrameSearch.FrameSearcher.PackageOf | crates/nixdex-core/src/database.rs:2282-2298 | the cached package is the parsed package of the footer |
| FrameSearch.FrameSearcher.TakeEntry | crates/nixdex-core/src/database.rs:2277-2317 | a matching entry waits, is reported, or is dropped as the next footer decides |
| FrameSearch.FrameSearcher.MatchEntries | crates/nixdex-core/src/database.rs:2223-2318 | the matching loop computes the scan of the block |
| FrameSearch.FrameSearcher.SearchBlock | crates/nixdex-core/src/database.rs:2170-2320 | one block of whole lines is the one-pass scan of its lines from the state before, failures included |
| StreamSearch.SearchFrame | crates/nixdex-core/src/database.rs:2153-2326 | block-split independence: the hits are those of the one-pass search of all lines, and `MissingPackageEntry` is reported exactly when that search leaves entries waiting |
| PackageSearch.ScanDatabase | crates/nixdex-core/src/database.rs:2153-2326 | the one-pass search of a written database gives the entries one would pick by hand, package `i` having ordinal `first + i`, unless ordinals overflow |
| PackageSearch.SearchPackages | crates/nixdex-core/src/database.rs:2399-2420 | searching an encoded list of packages returns exactly the hits picked by hand |
| PackageSearch.RestrictedIsFiltered | crates/nixdex-core/src/database.rs:2303-2315 | restricting a search to some ordinals is the full search followed by a filter, in the same order |
| PackageSearch.HitsAre | crates/nixdex-core/src/database.rs:2259-2317 | a hit is an entry of a package whose line and path match, and whose package has the name, hash, label `attr.output` and ordinal asked for |
| PackageScan.Collect | crates/nixdex-core/src/database.rs:403-415 | byte by byte: the entries added for a tree are exactly those whose path begins with the prefix and with nothing excluded, and that hold no zero byte or newline in path or link target, each as often as it is listed |
| PackageScan.AddBuilds | crates/nixdex-core/src/database.rs:403-449 | packages are stored in order, and skipped exactly when they have no such entry |
| PackageScan.SplitJoin | crates/nixdex-core/src/database.rs:3965-3968 | splitting a block of whole lines gives its lines and one empty piece |
| PackageScan.ScanPackages | crates/nixdex-core/src/database.rs:3946-4043 | the packages found do not depend on how the decoder cuts the stream |
| PackageScan.TakeDatabase | crates/nixdex-core/src/database.rs:3970-4040 | scanning the lines of a database finds its packages in order |
| PackageScan.ReadsExactly | crates/nixdex-core/src/database.rs:3965-4040 | the lines of a stream are read if and only if each is empty or an entry, or a footer that parses or has no entry since the footer before it |
| PackageScan.WriteThenScan | crates/nixdex-core/src/database.rs:3946-4043 | package round trip: from file trees through listing, filter, encoder, decoder and scan, exactly the kept entries of every non-empty package come back, in order |
| FrameRanges.CutFrames | crates/nixdex-core/src/database.rs:681-711 | consecutive ranges over the whole chunk, each ending with a package and cut at the first package that reaches the target; at most 2*parallelism-1 of them; an error only for boundaries out of order |
| FrameRanges.FewRanges | crates/nixdex-core/src/database.rs:690-704 | any such cut has at most 2*parallelism-1 ranges |
| FrameRanges.OneCut | crates/nixdex-core/src/database.rs:681-711 | there is only one way to cut a chunk like this |
| FrameRanges.TargetIs | crates/nixdex-core/src/database.rs:687-697 | the target length is the rounded-down share of each thread, and at least one byte |
| FrameWriter.EndsAreBoundaries | crates/nixdex-core/src/database.rs:448-449 | the recorded ends of packages are strictly increasing and reach the end of the chunk |
| FrameWriter.MapFrames | crates/nixdex-core/src/database.rs:495-513 | the nested loop maps every package to a frame that contains it |
| FrameWriter.MapIsMonotone | crates/nixdex-core/src/database.rs:495-513 | a package lies in one frame only, and later packages never in earlier frames |
| FrameWriter.Writer.CheckFrames | crates/nixdex-core/src/database.rs:515-533 | the check passes for the first chunk and fails whenever packages were mapped before |
| FrameWriter.Writer.WriteFrames | crates/nixdex-core/src/database.rs:535-569 | writes the compressed slices in order with their lengths, and stops exactly at a frame too long for its length field |
| FrameWriter.Writer.FlushChunk | crates/nixdex-core/src/database.rs:479-572 | the first non-empty flush writes and maps all packages; any later one fails and writes nothing |
| SeekTable.ReadsWords | crates/nixdex-core/src/database.rs:1925-1936 | reading a list of little-endian words and finding their bytes are the same |
| SeekTable.WriteTable | crates/nixdex-core/src/database.rs:618-646 | prints the skippable frame with all lengths and the payload length at both ends |
| SeekTable.ParseTable | crates/nixdex-core/src/database.rs:1475-1569 | reads any bytes within bounds, and accepts exactly the files that end with a printed table whose lengths fill the space behind the header |
| SeekTable.TableUnique | crates/nixdex-core/src/database.rs:1475-1569 | no file ends with two different tables |
| SeekTable.SlotsTile | crates/nixdex-core/src/database.rs:1554-1566 | the slots returned tile the bytes from the header to the table without gap or overlap |
| Layouts.SeekTableLayout | crates/nixdex-core/src/database.rs:618-646 | the table of one frame, byte for byte |
| FrameMapFile.WriteFrameMap | crates/nixdex-core/src/database.rs:1572-1596 | writes the map, and refuses exactly counts and indices that do not fit |
| FrameMapFile.ReadFrameMap | crates/nixdex-core/src/database.rs:1599-1642 | accepts exactly the files that a write produces and returns what was written |
| Layouts.FrameMapLayout | crates/nixdex-core/src/database.rs:1572-1596 | the map of one package, byte for byte |
| Database.FrameHolds | crates/nixdex-core/src/database.rs:491-533 | a frame's bytes are its packages, and its packages are consecutive ordinals |
| Database.FrameStarts | crates/nixdex-core/src/database.rs:1905-1923 | for every frame the smallest ordinal mapped to it, or the largest integer when there is none |
| Database.Finish | crates/nixdex-core/src/database.rs:574-662 | succeeds if and only if the chunk is cut into few enough frames and none compresses to more than its length field holds; the finished file is header, frames and seek table of the added packages |
| Database.ShortFits | crates/nixdex-core/src/database.rs:535-569 | a compressor that keeps within the limit on inputs of at most the size of the database is enough |
| Layouts.HeaderLayout | crates/nixdex-core/src/database.rs:574-616 | `NIXI` and the version in eight little-endian bytes |
| Database.Open | crates/nixdex-core/src/database.rs:764-877 | opening succeeds exactly for a version-1 header and for a version-2 header with a valid table, and finds the slots and frame starts of either |
| Database.NeededFrames | crates/nixdex-core/src/database.rs:1050-1057 | exactly the frames to which a candidate ordinal is mapped |
| Database.SearchEntries | crates/nixdex-core/src/database.rs:1027-1153 | opening only the needed frames returns the same hits, in order, as searching everything for those ordinals |
| DatabaseRoundTrip.BuiltStands | crates/nixdex-core/src/database.rs:491-646 | an opened database stands for the packages that were written, cut where its frames are |
| DatabaseRoundTrip.Write | crates/nixdex-core/src/database.rs:403-662 | encoding, cutting, compressing and writing both files succeeds if and only if no byte is reserved and the frames fit the format |
| DatabaseRoundTrip.WriteOpenSearch | crates/nixdex-core/src/database.rs:1027-1153 | selective decompression refines the full scan: write, open and search for some ordinals succeeds exactly when the frames fit the format, and gives the full-scan hits with these ordinals, in order |
| DatabaseRoundTrip.SearchOldFile | crates/nixdex-core/src/database.rs:1027-1130 | a file of version 1, one compressed frame behind the header, is opened and searched whole: every hit of the full search is found, whatever ordinals are asked for |
| ByteOrder.PastPrefix | crates/nixdex-core/src/path_index.rs:225-228 | behind a non-matching key greater than the prefix no key starts with the prefix |
| ByteOrder.LessMeans | crates/nixdex-core/src/path_index.rs:108-142 | the order of keys: at the first position where two differ the lesser one has the smaller byte or has ended |
| Postings.WritePostings | crates/nixdex-core/src/path_index.rs:108-142 | every set is written as a counted ascending list at its cookie, unless a count does not fit |
| Postings.ReadList | crates/nixdex-core/src/path_index.rs:271-300 | reads any blob at any cookie within bounds, and returns the list there unless it is longer than allowed |
| Layouts.PostingLayout | crates/nixdex-core/src/path_index.rs:121-127 | a posting list byte for byte: its length and its ids |
| Layouts.SidecarHeads | crates/nixdex-core/src/path_index.rs:108-116 | the magic numbers and versions in front of the other sidecars |
| PathIndex.PathIndexBuilder.RecordPackage | crates/nixdex-core/src/path_index.rs:89-101 | adds the ordinal under exactly the non-empty recorded paths |
| PathIndex.LookupPath | crates/nixdex-core/src/path_index.rs:199-205 | exactly the ordinals recorded for the path, ascending and without duplicates |
| PathIndex.LookupPrefix | crates/nixdex-core/src/path_index.rs:216-234 | although the walk stops early, exactly the ordinals recorded under some path with the prefix, ascending and without duplicates |
| PathIndex.UnderTable | crates/nixdex-core/src/path_index.rs:216-234 | the keys walked are all recorded paths |
| PathIndex.RecordPackages | crates/nixdex-core/src/path_index.rs:89-101 | recording packages in order lists each under exactly its non-empty paths |
| BasenameIndex.BasenameIs | crates/nixdex-core/src/basename_index.rs:342-350 | the part of a path behind its last slash, or the whole path without one |
| BasenameIndex.BasenameIndexBuilder.RecordPackage | crates/nixdex-core/src/basename_index.rs:111-134 | the package gets the next ordinal, its label and the names of its paths are kept under it, and an overflow changes nothing |
| BasenameIndex.WriteNames | crates/nixdex-core/src/basename_index.rs:418-434 | writes the names behind their lengths, and refuses exactly counts and lengths that do not fit |
| BasenameIndex.ParseNames | crates/nixdex-core/src/basename_index.rs:437-492 | accepts exactly the files that start with a printed table of acceptable names, and finds these names |
| BasenameIndex.NamesUnique | crates/nixdex-core/src/basename_index.rs:437-492 | no file starts with two different tables |
| Layouts.NamesLayout | crates/nixdex-core/src/basename_index.rs:418-434 | the table of one name, byte for byte |
| BasenameIndex.LookupOrdinals | crates/nixdex-core/src/basename_index.rs:294-299 | exactly the ordinals of the packages that hold a file of this name, ascending, each once |
| BasenameIndex.LookupBasename | crates/nixdex-core/src/basename_index.rs:262-285 | the labels of exactly these packages, in the order in which they were recorded |
| BasenameIndex.RecordThenLookup | crates/nixdex-core/src/basename_index.rs:111-285 | the round trip through both files, which works exactly for acceptable names, ordinals that fit, and lists within the cap |
| BasenameIndex.LongNameUnreadable | crates/nixdex-core/src/basename_index.rs:418-492 | a table with a name over the cap is written, and is then no table of any names |
| EntryIndex.EntryIndexBuilder.RecordPackage | crates/nixdex-core/src/entry_index.rs:112-139 | every entry with a path joins the hits kept under its name, in order; the ids of store paths run out exactly at their limit |
| EntryIndex.EntryIndexBuilder.WriteSidecars | crates/nixdex-core/src/entry_index.rs:151-200 | both files hold exactly the recorded hits, or it is refused, exactly when a blob is too large |
| EntryIndex.LookupName | crates/nixdex-core/src/entry_index.rs:277-307 | exactly the hits recorded for the name, in recording order, none for an unknown or empty one |
| Trigrams.RecordWindows | crates/nixdex-core/src/path_trigram_index.rs:87-99 | adds the id under exactly the three-byte windows of the document |
| Trigrams.PathTrigramBuilder.RecordPath | crates/nixdex-core/src/path_trigram_index.rs:87-99 | the same for a path and its id |
| Trigrams.NgramBuilder.RecordPackage | crates/nixdex-core/src/ngram_index.rs:101-120 | adds the ordinal under exactly the windows of its paths |
| Trigrams.WindowKeys | crates/nixdex-core/src/path_trigram_index.rs:203-217 | collects the distinct windows of a pattern, or stops at one that is absent, when no id can be left |
| Trigrams.CandidatePathIds | crates/nixdex-core/src/path_trigram_index.rs:196-237 | exactly the ids recorded under every window of the pattern, whatever repeats and whichever list is smallest |
| Trigrams.CandidatesComplete | crates/nixdex-core/src/path_trigram_index.rs:8-11 | every path that contains the pattern is a candidate |
| Trigrams.IndexPaths | crates/nixdex-core/src/database.rs:3879-3888 | indexing the sorted paths gives each the id that is its position |
| Ngrams.WriteBitmaps | crates/nixdex-core/src/ngram_index.rs:131-168 | every bitmap can be read back at its cookie, unless one is too large |
| Blobs.WriteBlobs | crates/nixdex-core/src/entry_index.rs:155-189 | the loop behind both indexes: every value can be read back at the cookie of its key, unless a blob is too large |
| Layouts.BlobLayout | crates/nixdex-core/src/entry_index.rs:180-186 | a serialized value stands behind its length |
| Ngrams.IntersectSmallest | crates/nixdex-core/src/ngram_index.rs:276-291 | popping from the smallest and stopping at an empty set computes the whole intersection |
| Ngrams.CandidateOrdinals | crates/nixdex-core/src/ngram_index.rs:242-291 | exactly the packages recorded under every window of the pattern |
| Ngrams.PackageIsCandidate | crates/nixdex-core/src/ngram_index.rs:10-14 | every package with a path that contains the pattern is a candidate |
| Ngrams.IndexPackages | crates/nixdex-core/src/ngram_index.rs:101-120 | recording packages in order indexes exactly their windows |
| CommandIndex.CandidateName | crates/nixdex-core/src/command_index.rs:340-365 | a path is a command exactly when it is a plain name in `/bin/`, `/usr/bin/`, `/sbin/` or `/usr/sbin/`, given by their bytes |
| CommandIndex.CommandBuilder.ProviderId | crates/nixdex-core/src/command_index.rs:149-161 | a provider gets one id for good, and ids never change |
| CommandIndex.CommandBuilder.RecordPackage | crates/nixdex-core/src/command_index.rs:128-147 | records the provider for exactly the commands among the paths |
| CommandIndex.WriteProviders | crates/nixdex-core/src/command_index.rs:434-469 | writes the provider table, and refuses exactly counts and labels that do not fit |
| CommandIndex.ParseProviders | crates/nixdex-core/src/command_index.rs:472-549 | accepts exactly the files that start with a printed table within the caps, and finds the labels of its providers |
| CommandIndex.ProvidersUnique | crates/nixdex-core/src/command_index.rs:472-549 | no file starts with two different tables |
| Layouts.ProvidersLayout | crates/nixdex-core/src/command_index.rs:434-469 | the table of one provider, byte for byte |
| CommandIndex.WriteSidecars | crates/nixdex-core/src/command_index.rs:172-215 | repeated ids are dropped, and both files hold what was recorded |
| CommandIndex.LookupCommand | crates/nixdex-core/src/command_index.rs:292-328 | exactly the providers recorded for the command, each once |
| CommandIndex.RecordThenLookup | crates/nixdex-core/src/command_index.rs:128-328 | the round trip through both files: exactly the providers of packages with such a command, each once; it works exactly when labels and counts are within the caps |
| PathTable.PathEntryBuilder.RecordPackage | crates/nixdex-core/src/path_entry_index.rs:122-147 | appends the non-empty-path entries of the package to what is recorded under their paths |
| PathTableFile.PatchTable | crates/nixdex-core/src/path_entry_index.rs:221-246 | patching four bytes of the entries file changes exactly one entry of its offset table |
| PathTableFile.AddBlob | crates/nixdex-core/src/path_entry_index.rs:207-246 | appends a blob and patches its start and end, or refuses exactly when a size does not fit |
| PathTableFile.WriteTable | crates/nixdex-core/src/path_entry_index.rs:176-277 | the sorted paths get consecutive ids, and all tables hold them |
| Layouts.PathTableLayout | crates/nixdex-core/src/path_entry_index.rs:184-277 | the tables of one path, byte for byte |
| PathTableLookup.PathBytes | crates/nixdex-core/src/path_entry_index.rs:374-407 | the i-th smallest path for id i, and an error for any other id |
| PathTableLookup.EntryOffsets | crates/nixdex-core/src/path_entry_index.rs:542-560 | the bytes between the two offsets of an id are its blob |
| PathTableLookup.LookupPathId | crates/nixdex-core/src/path_entry_index.rs:364-371 | the inverse of the above: the position of a recorded path, and nothing for any other path |
| PathTableLookup.LookupEntriesById | crates/nixdex-core/src/path_entry_index.rs:412-442 | exactly the hits recorded for the path with this id, in recording order |
| PathTableLookup.LookupEntries | crates/nixdex-core/src/path_entry_index.rs:447-452 | exactly the hits recorded for a path, none for an unknown one |
| LiteralSearch.Candidates | crates/nixdex-core/src/database.rs:1193-1228 | every path asked for has its id among the candidates, also after narrowing by the suffix |
| LiteralSearch.SearchCandidate | crates/nixdex-core/src/database.rs:1247-1279 | the hits of one candidate that pass all checks and filters |
| LiteralSearch.SearchLiteral | crates/nixdex-core/src/database.rs:1167-1283 | when the fast search answers, its hits are as a multiset the recorded hits that are asked for; it gives up only for trigrams in too many paths or candidate sets beyond the cap |
| LiteralSearch.SearchShort | crates/nixdex-core/src/database.rs:1298-1364 | for patterns shorter than a trigram the walk over all path ids finds exactly the recorded hits that are asked for, or the first of them up to the limit |
| LiteralSearch.SearchPathTrigram | crates/nixdex-core/src/database.rs:1167-1364 | whichever sidecars are there and however short the pattern, an answer is the recorded hits that are asked for; only a short pattern stops at the limit |
| LiteralSearch.ShownMeets | crates/nixdex-core/src/database.rs:2803-2855 | the filter shows exactly the hits that meet every option set: no slash behind the last match, top-level, file type and executable flag, size bounds with links as nothing, no "-fhs" or "-usr-target" in the name |
| FastEqualsScan.LiteralAsksTheSame | crates/nixdex-core/src/database.rs:1242-1251 | a plain literal asks the fast search and the scan the same question |
| FastEqualsScan.SafeRegexAsksTheSame | crates/nixdex-core/src/database.rs:1252-1264 | so does a regex, safe from both ends, with a distinct literal prefix and suffix |
| FastEqualsScan.ScanIsLog | crates/nixdex-core/src/database.rs:2153-2326 | the shown hits of a full scan are a filter of what the sidecars record, in the same order |
| FastEqualsScan.ScanAgrees | crates/nixdex-core/src/database.rs:1266-1279 | the shown hits of the full scan are the matching records of the sidecars, in order |
| FastEqualsScan.BuildSidecars | crates/nixdex-core/src/database.rs:3875-3897 | the generated sidecars are consistent with each other and with the packages, and fail only when a size does not fit |
| FastEqualsScan.FastSearch | crates/nixdex-core/src/database.rs:1167-1364 | the fast search and the full scan agree as multisets |
| SearchPlan.GenerateSidecars | crates/nixdex-core/src/database.rs:3779-3900 | all sidecars of a database are generated from the same packages, and this fails only for a label, id or blob that does not fit |
| SearchPlan.GenerateEntries | crates/nixdex-core/src/database.rs:3779-3900 | the entry index of a database keeps every entry with a path under its name, and fails only for too many packages or a blob that is too large |
| SearchPlan.ResolveBasename | crates/nixdex-core/src/database.rs:2590-2609 | exactly the packages with the basename, or no answer |
| SearchPlan.ResolvePath | crates/nixdex-core/src/database.rs:2616-2640 | exactly the packages with the exact path, or else with the prefix, or no answer |
| SearchPlan.NgramsKnow | crates/nixdex-core/src/database.rs:2768-2787 | an index of the packages by trigrams misses no package with a path that contains the pattern, and has none for a pattern with a NUL |
| SearchPlan.CandidatePackages | crates/nixdex-core/src/database.rs:3209-3266 | exactly the packages with the name or the place, as far as an index answers for them, that are also candidates for every literal with an answer; none that may match is missing |
| SearchPlan.CompleteLosesNothing | crates/nixdex-core/src/database.rs:3446-3454 | restricting the search to complete candidates gives all hits of the full search, in the same order |
| SearchPlan.SearchExactPath | crates/nixdex-core/src/database.rs:3299-3325 | the path table gives exactly the recorded hits of the path that pass the filters |
| SearchPlan.SearchName | crates/nixdex-core/src/database.rs:1371-1397 | the entry index gives exactly the recorded hits of the name that pass the filters, whatever their path |
| SearchPlan.Search | crates/nixdex-core/src/database.rs:3194-3490 | every route answers with exactly the hits it stands for, the pruned scan with those of the full scan; said of packages, paths and options alone, what is found is what the route looks for and meets every option; of that, in the requested order, the first ones up to the limit are returned; and which route is taken |
| SearchPlan.AnsweredFinds | crates/nixdex-core/src/database.rs:3297-3490 | a hit is found by a route exactly when it is stored, its package is as asked, its path is as the route looks for, and it meets the options |
| SearchPlan.AnswersAgree | crates/nixdex-core/src/database.rs:3290-3490 | when the routes ask the question of the scan, the hits found are the shown hits of the full scan whichever route is taken |
| ResultOrder.Present | crates/nixdex-core/src/database.rs:3461-3487 | of the hits that meet the options, the same ones in the requested order, like hits as they were, cut to the limit: it does not matter that the sort comes before the filter |
| ResultOrder.PresentedFirst | crates/nixdex-core/src/database.rs:3461-3487 | by size of nodes and bytes of attributes: the results are in order, and none left out belongs strictly in front of one returned |
| ResultOrder.ArrangedIsStable | crates/nixdex-core/src/database.rs:3461-3474 | hits that compare equal keep their order |
| ResultOrder.PresentsMeans | crates/nixdex-core/src/database.rs:3461-3487 | results presented in this way are in order, are as many as the limit allows, and leave nothing out without one |
| PlainQueries.AstFinds | crates/nixdex-cli/src/locate.rs:266-279 | the anchored regex of a plain pattern finds exactly the paths that start with, end with, equal or contain it |
| PlainQueries.AstLiterals | crates/nixdex-core/src/database.rs:2000-2076 | both extractions take the whole pattern from that regex |
| PlainQueries.PlanFits | crates/nixdex-cli/src/locate.rs:222-264 | every path that a plain query matches is as the options set for it say |
| PlainQueries.ListedProper | crates/nixdex-core/src/files.rs:324-345 | encodable entries listed from any tree are at proper paths, which are absolute and without reserved bytes |
| PlainQueries.ProperExactly | crates/nixdex-core/src/files.rs:324-345 | and every proper path is listed from some tree without slashes in its names |
| PlainQueries.ReliableExactly | crates/nixdex-core/src/database.rs:3290-3443 | a query is reliable if and only if each fast search tried for it looks, among the paths a database can hold, for exactly the matching ones |
| PlainQueries.WitnessTells | crates/nixdex-core/src/database.rs:3290-3443 | for every other query a path that a database can hold, that is looked for, and that does not match |
| PlainQueries.WholeNameElsewhere | crates/nixdex-cli/src/locate.rs:231-243 | `-w bin/ls` is one of them, and looks for `/lib/ls` |
| PlainQueries.SearchPlain | crates/nixdex-core/src/database.rs:3194-3490 | for a reliable query the results are the shown hits of the full scan in the requested order up to the limit, over any subset of the sidecars |
| PlainQueries.SearchAstray | crates/nixdex-core/src/database.rs:3194-3490 | for any other query, over all sidecars, the search of a database with one entry at a telling path returns it, and the full scan shows nothing |
| WholeSearch.WriteThenSearch | crates/nixdex-core/src/database.rs:3194-3490 | whenever packages fit the database and its indexes, writing, opening, indexing and searching answers a plain query, a reliable one with the shown hits of the full scan |
| NgramCache.Cache.Get | crates/nixdex-core/src/database.rs:131-140 | a hit promotes its key and a miss changes nothing |
| NgramCache.Cache.Insert | crates/nixdex-core/src/database.rs:142-158 | the key is cached in front, other entries are unchanged or, the least recently used one, evicted |
| NgramCache.PromoteTake | crates/nixdex-core/src/database.rs:131-140 | after a hit the cached keys are again the most recently used ones, in order |
| NgramCache.FreshTake | crates/nixdex-core/src/database.rs:151-157 | after an insertion too, so the cache is a true LRU |
| NgramCache.KeysAgree | crates/nixdex-core/src/database.rs:2709-2763 | calls with the same key, one of them with an answer, have the same answer, patterns with a NUL included |
| NgramCache.ResolveMulti | crates/nixdex-core/src/database.rs:2709-2763 | transparency: for every call the search makes the answer is the one without the cache, and the cache stays right |
| RegexLiteral.PrefixSound | crates/nixdex-core/src/database.rs:2053-2076 | every match of a safe tree begins with the extracted prefix |
| RegexLiteral.SuffixSound | crates/nixdex-core/src/database.rs:2028-2051 | every match of a safe tree ends with the extracted suffix |
| RegexLiteral.GroupsPlainSafe | crates/nixdex-core/src/database.rs:2028-2076 | trees whose groups hold only literals and assertions are safe |
| RegexLiteral.FoundContains | crates/nixdex-core/src/database.rs:2000-2026 | a text in which a safe regex matches contains both literals |
| RegexLiteral.RepeatingGroupMisses | crates/nixdex-core/src/database.rs:2062-2072 | a group with a repetition can make the prefix wrong, and a match is then missed |
| Segments.PlanSegments | crates/nixdex-core/src/prebuilt.rs:251-270 | ranges that cover the file without gap, as many as planned, differing in size by at most one, the larger ones first |
| Segments.HalfTheMinimum | crates/nixdex-core/src/prebuilt.rs:251-270 | when two ranges or more are planned each holds at least half the nominal minimum |
| Segments.DocumentedMinimum | crates/nixdex-core/src/prebuilt.rs:243-270 | the exact condition on size and connections under which every planned range has the documented minimum |
| Segments.DocumentedMinimumFails | crates/nixdex-core/src/prebuilt.rs:243-270 | one byte over the minimum on two connections is planned as two ranges of about half of it |
| Prebuilt.MissingSegments | crates/nixdex-core/src/prebuilt.rs:355-374 | exactly the parts, the first aside, without their expected length |
| Prebuilt.FetchKeepsSound | crates/nixdex-core/src/prebuilt.rs:382-414 | one request keeps every part within its own range of the one version: a stored part is of its own segment, no other part is touched, and a change of the resource leaves all as it was |
| Prebuilt.FetchMissing | crates/nixdex-core/src/prebuilt.rs:496-517 | one round requests every missing part once and notices any change |
| Prebuilt.ConcatParts | crates/nixdex-core/src/prebuilt.rs:299-315 | joins the parts in order |
| Prebuilt.Retry | crates/nixdex-core/src/prebuilt.rs:486-525 | the loop computes the rounds, and fails as they do |
| Prebuilt.RunKeepsSound | crates/nixdex-core/src/prebuilt.rs:486-525 | whatever breaks and however the run ends, aborted runs included, every part file holds bytes of its own range of the one version |
| Prebuilt.TrySegmentedDownload | crates/nixdex-core/src/prebuilt.rs:425-532 | by the answers alone: it ends with a changed resource exactly when one of three rounds has a missing part refused with 200, 416 or another status, and succeeds exactly when two rounds bring every part in full; a successful download is the whole resource if and only if the probe body was complete |
| Prebuilt.SecondRoundSuffices | crates/nixdex-core/src/prebuilt.rs:486-525 | broken, missing and retryable answers in the first round do no harm when the second brings the rest |
| Prebuilt.ShortProbeUnnoticed | crates/nixdex-core/src/prebuilt.rs:477-498 | the whole download of a one-segment file returns whatever body the probe had |
| Prebuilt.ThirdRoundIsWasted | crates/nixdex-core/src/prebuilt.rs:487-499 | servers that answer alike in the first two rounds give the same success and the same parts, whatever the third round fetches |
| Prebuilt.FullRoundSuffices | crates/nixdex-core/src/prebuilt.rs:487-525 | one of the first two rounds answered in full means success |

## Left out

- FrcodeDecoder.Decoder.Decode: on input that is not a regular stream only safety and termination of each call are stated, not which error is reported; readers that expose their input in several chunks are not modelled, so neither is `MissingNul` for a reader that pauses inside the last footer.
- FrcodeStream.DecodeAll: stated for regular streams, those an encoder writes; on others `Decode` covers each call.
- StreamSearch.SearchFrame: stated for regular streams, those an encoder writes; a corrupt stream ends in some error or other.
- PackageScan.ScanPackages: stated for regular streams as well.
- FrameWriter.Writer.FlushChunk: compression is a function of the slice; parallel compression and its I/O errors are not modelled.
- Database.Finish: states the database of one flush; a second one fails, as shown.
- LiteralSearch.SearchPathTrigram: with a prefix but no distinct suffix the code does not check paths against the regex again, and the model follows it, so no equality with the scan is claimed for that case.
- RegexLiteral.PrefixSound: the condition on the tree is sufficient, not necessary, since whether a wrong prefix still occurs in every match depends on the language of the regex; flags such as `(?i)` are not part of the syntax modelled.
- PlainQueries.SearchPlain: a pattern with a newline, for which the line searcher cannot be built and a scan ends in an error, since a matcher for the query is assumed.
- SearchPlan.Search: the redb store, which stands in for a missing path table, is not modelled; the sidecars that are there were generated from the database that is searched.
- NgramCache.ResolveMulti: one query at a time; the lock is released between lookup and insertion, which only lets two queries insert the same answer.
- Prebuilt.TrySegmentedDownload: downloads without an ETag, part files left by an earlier run, and requests running at the same time are not modelled; the requests of a round touch different parts, so one order stands for all.
- Ngrams.CandidateOrdinals: version-1 posting files, which hold lists of ordinals in place of bitmaps, are not modelled.
- CrawlTheorems.CompleteRunDelivers: a worker's last send and the release of its permit are one step, so no run has another task act between them.
- The crawl: a consumer that stops receiving, a closed semaphore, and fetches that answer differently when asked twice are not modelled.
- Caps on file sizes (`MAX_POSTINGS_BYTES` and the like), checked when files are opened, and the header checks of the sidecar files.
- BasenameIndex.LookupBasename: UTF-8 validity of labels is not modelled, and neither is `lookup_basename_prefix_ordinals`, which nothing calls.
- The redb index, package search scoring, the path cache, frame hashes and attribute sidecars: they repeat what is proved here for other tables, or call libraries.
- HTTP, the tokio runtime, memory mapping, file handles, the warm cache of a version-1 frame, the command line beyond the options of a search, the daemon and all rendering.
- zstd, roaring, fst, postcard, JSON and the regex engine themselves; text is bytes, and UTF-8 validity of labels is not modelled.
