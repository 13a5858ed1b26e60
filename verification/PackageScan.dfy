/**
 * The scan that rebuilds packages from a stream, and the way of a package from its file tree through
 * the stream and back.
 */
module PackageScan {
  import opened Wrappers
  import opened Bytes
  import opened Files
  import opened StorePaths
  import opened FrcodeFormat
  import opened FrcodeBlocks
  import opened FrcodeDecoder
  import opened FrcodeStream
  import opened FrcodeRoundTrip
  import opened TextLines
  import opened SearchSpec
  import opened FrameSearch
  import opened StreamSearch
  import opened PackageSearch

  /** A package as the scan finds it. */
  datatype Found = Found(store: StorePath, entries: seq<FileTreeEntry>)

  /** Packages found, and the entries of the package being read. */
  datatype ScanState = ScanState(found: seq<Found>, entries: seq<FileTreeEntry>)

  /** JSON as a partial function on bytes. */
  type Parser = Bytes -> Option<StorePath>

  function TakeLine(parse: Parser, s: ScanState, line: Bytes): Result<ScanState, SearchError> {
    if line == [] then Ok(s)
    else if IsFooter(line) then
      if s.entries == [] then Ok(s)
      else match parse(Json(line))
        case None => Err(StorePathParse(Json(line)))
        case Some(store) => Ok(ScanState(s.found + [Found(store, s.entries)], []))
    else match Files.DecodeEntry(line)
      case None => Err(EntryParse(line))
      case Some(entry) => Ok(s.(entries := s.entries + [entry]))
  }

  function TakeLines(parse: Parser, s: ScanState, lines: seq<Bytes>): Result<ScanState, SearchError> {
    if lines == [] then Ok(s)
    else match TakeLines(parse, s, lines[..|lines| - 1])
      case Err(e) => Err(e)
      case Ok(t) => TakeLine(parse, t, lines[|lines| - 1])
  }

  lemma {:induction false} TakeConcat(parse: Parser, s: ScanState, a: seq<Bytes>, b: seq<Bytes>)
    ensures TakeLines(parse, s, a + b) ==
            match TakeLines(parse, s, a)
            case Err(e) => Err(e)
            case Ok(t) => TakeLines(parse, t, b)
    decreases |b|
  {
    hide TakeLine;
    if b == [] {
      assert a + b == a;
    } else {
      var n := |b| - 1;
      TakeConcat(parse, s, a, b[..n]);
      assert (a + b)[..|a| + n] == a + b[..n];
    }
  }

  // ---------- which lines can be read ----------

  /** Line `j` is an entry of the package that line `i` closes. */
  ghost predicate Awaits(lines: seq<Bytes>, j: nat, i: nat) {
    j < i <= |lines| && lines[j] != [] && forall k | j <= k < i :: !([112, 0] <= lines[k])
  }

  ghost predicate SomeAwait(lines: seq<Bytes>, i: nat) {
    exists j: nat :: Awaits(lines, j, i)
  }

  /** A line is empty or an entry, or a footer that parses if it closes a package with entries. */
  ghost predicate LineReads(parse: Parser, lines: seq<Bytes>, i: nat)
    requires i < |lines|
  {
    if [112, 0] <= lines[i] then SomeAwait(lines, i) ==> parse(lines[i][2..]).Some?
    else lines[i] == [] || exists entry :: IsEntryLine(lines[i], entry)
  }

  /** The lines are read exactly when every one of them can be. */
  lemma {:induction false} ReadsExactly(parse: Parser, lines: seq<Bytes>)
    ensures var taken := TakeLines(parse, ScanState([], []), lines);
            && (taken.Ok? <==> forall i | 0 <= i < |lines| :: LineReads(parse, lines, i))
            && (taken.Ok? ==> (taken.value.entries != [] <==> SomeAwait(lines, |lines|)))
    decreases |lines|
  {
    hide TakeLine, IsEntryLine;
    if lines != [] {
      var n := |lines| - 1;
      var front := lines[..n];
      ReadsExactly(parse, front);
      forall i: nat | i <= n ensures SomeAwait(lines, i) == SomeAwait(front, i) {
        assert forall j: nat :: Awaits(lines, j, i) == Awaits(front, j, i);
      }
      forall i | 0 <= i < n ensures LineReads(parse, lines, i) == LineReads(parse, front, i) {
        assert lines[i] == front[i];
      }
      var before := TakeLines(parse, ScanState([], []), front);
      if before.Ok? {
        LastReads(parse, before.value, lines);
      }
    }
  }

  lemma LastReads(parse: Parser, s: ScanState, lines: seq<Bytes>)
    requires lines != [] && (s.entries != [] <==> SomeAwait(lines, |lines| - 1))
    ensures var taken := TakeLine(parse, s, lines[|lines| - 1]);
            && (taken.Ok? <==> LineReads(parse, lines, |lines| - 1))
            && (taken.Ok? ==> (taken.value.entries != [] <==> SomeAwait(lines, |lines|)))
  {
    var line := lines[|lines| - 1];
    assert IsFooter(line) <==> [112, 0] <= line;
    AwaitsNext(lines);
    ReadEntry(line);
    hide SomeAwait, IsFooter, IsEntryLine, DecodeEntry;
  }

  lemma AwaitsNext(lines: seq<Bytes>)
    requires lines != []
    ensures var n := |lines| - 1;
            SomeAwait(lines, n + 1) <==> !([112, 0] <= lines[n]) && (SomeAwait(lines, n) || lines[n] != [])
  {
    var n: nat, end: nat := |lines| - 1, |lines|;
    if j: nat :| Awaits(lines, j, end) {
      assert j == n || Awaits(lines, j, n);
    }
    if !([112, 0] <= lines[n]) {
      if j: nat :| Awaits(lines, j, n) {
        assert Awaits(lines, j, end);
      }
      if lines[n] != [] {
        assert Awaits(lines, n, end);
      }
    }
  }

  lemma ReadEntry(line: Bytes)
    ensures DecodeEntry(line).Some? <==> exists entry :: IsEntryLine(line, entry)
  {
    hide DecodeEntry, IsEntryLine;
    if DecodeEntry(line).Some? {
      DecodesEntries(line, DecodeEntry(line).value);
    }
    forall entry | IsEntryLine(line, entry) ensures DecodeEntry(line).Some? {
      DecodesEntries(line, entry);
    }
  }

  // ---------- splitting a block ----------

  /** `split` at newlines: the pieces between them, also the one behind the last. */
  function SplitLines(block: Bytes): (r: seq<Bytes>)
    decreases |block|
  {
    var end := IndexOf(block, NEWLINE);
    if end == |block| then [block] else [block[..end]] + SplitLines(block[end + 1..])
  }

  /** A block splits behind its first line. */
  lemma FirstLineSplits(line: Bytes, rest: Bytes)
    requires NEWLINE !in line
    ensures SplitLines(line + [NEWLINE] + rest) == [line] + SplitLines(rest)
  {
    var block := line + [NEWLINE] + rest;
    assert block[..|line|] == line && block[|line| + 1..] == rest;
    IndexOfIs(block, NEWLINE, |line|);
  }

  /** A block of whole lines splits into its lines and an empty piece. */
  lemma {:induction false} SplitJoin(lines: seq<Bytes>)
    requires AreLines(lines)
    ensures SplitLines(Join(lines)) == lines + [[]]
  {
    if lines != [] {
      var rest := lines[1..];
      assert lines == [lines[0]] + rest && forall l | l in rest :: l in lines;
      assert IsLine(lines[0]);
      SplitJoin(rest);
      JoinConcat([lines[0]], rest);
      JoinOne(lines[0]);
      FirstLineSplits(lines[0], Join(rest));
      Assoc([lines[0]], rest, [[]]);
    }
  }

  /** Scan the pieces of one block. */
  method ScanBlockLines(parse: Parser, s: ScanState, block: Bytes, ghost lines: seq<Bytes>) returns (r: Result<ScanState, SearchError>)
    requires AreLines(lines) && block == Join(lines)
    ensures r.Ok? <==> TakeLines(parse, s, lines).Ok?
    ensures r.Ok? ==> r == TakeLines(parse, s, lines)
  {
    SplitJoin(lines);
    var pieces := SplitLines(block);
    assert pieces[..0] == [] && pieces[..|lines|] == lines;
    hide Join, TakeLine;
    var t := s;
    for i := 0 to |pieces|
      invariant TakeLines(parse, s, pieces[..i]) == Ok(t)
    {
      assert pieces[..i + 1][..i] == pieces[..i];
      var taken := TakeLine(parse, t, pieces[i]);
      if taken.Err? {
        LineFails(parse, s, pieces, i);
        SkipEmpty(parse, t);
        return taken;
      }
      t := taken.value;
    }
    assert pieces[..|pieces|] == pieces && pieces == lines + [[]];
    SkipLast(parse, s, lines);
    return Ok(t);
  }

  lemma SkipEmpty(parse: Parser, s: ScanState)
    ensures TakeLine(parse, s, []) == Ok(s)
  {
  }

  lemma SkipLast(parse: Parser, s: ScanState, lines: seq<Bytes>)
    ensures TakeLines(parse, s, lines + [[]]) == TakeLines(parse, s, lines)
  {
    assert (lines + [[]])[..|lines|] == lines;
  }

  lemma LineFails(parse: Parser, s: ScanState, pieces: seq<Bytes>, i: nat)
    requires i < |pieces| && TakeLines(parse, s, pieces[..i]).Ok?
    requires TakeLine(parse, TakeLines(parse, s, pieces[..i]).value, pieces[i]).Err?
    ensures forall n | i < n <= |pieces| :: TakeLines(parse, s, pieces[..n]).Err?
  {
    forall n | i < n <= |pieces| ensures TakeLines(parse, s, pieces[..n]).Err? {
      assert pieces[..n] == pieces[..i + 1] + pieces[i + 1..n] && pieces[..i + 1][..i] == pieces[..i];
      TakeConcat(parse, s, pieces[..i + 1], pieces[i + 1..n]);
    }
  }

  /** Between two blocks: the decoder has handed out the first `k` lines, and `s` is what they hold. */
  ghost predicate Scanning(decoder: Decoder, parse: Parser, s: ScanState, lines: seq<Bytes>, k: nat)
    reads decoder, decoder.buf, decoder.buf.data
  {
    && AreLines(lines) && k <= |lines|
    && decoder.On(Join(lines)) && decoder.Emitted() == Offset(lines, k)
    && TakeLines(parse, ScanState([], []), lines[..k]) == Ok(s)
  }

  /** One block: decode it and scan its lines; an empty block ends the stream. */
  method ScanNext(decoder: Decoder, parse: Parser, s: ScanState, ghost lines: seq<Bytes>, ghost k: nat)
    returns (r: Result<Option<ScanState>, SearchError>, ghost n: nat)
    requires Scanning(decoder, parse, s, lines, k)
    modifies decoder, decoder.buf, decoder.buf.data
    ensures decoder.buf.data == old(decoder.buf.data) || fresh(decoder.buf.data)
    ensures r.Err? ==> TakeLines(parse, ScanState([], []), lines).Err?
    ensures r.Ok? && r.value.Some? ==> Scanning(decoder, parse, r.value.value, lines, n) && n > k
    ensures r == Ok(None) ==> k == |lines| && Scanning(decoder, parse, s, lines, k)
  {
    hide Join, TakeLines, AreLines, Offset, Between, WholeLines, Decoder.Valid, Decoder.Emitted;
    ghost var goal := Join(lines);
    var block := decoder.Decode(Some(goal));
    if block.value == [] {
      FullOffset(lines, k);
      return Ok(None), |lines|;
    }
    BlockIsLines(decoder, Offset(lines, k), goal);
    n := BlockLines(lines, k, decoder.Emitted());
    SomeLines(lines, k, n);
    NextLines(parse, ScanState([], []), lines, k, n);
    var scanned := ScanBlockLines(parse, s, block.value, lines[k..n]);
    return if scanned.Err? then Err(scanned.error) else Ok(Some(scanned.value)), n;
  }

  /**
   * `scan_decoder_for_packages` on a regular stream: the packages found are those of the one-pass scan
   * of all lines, however the decoder cuts them into blocks.
   */
  method ScanPackages(raw: Bytes, capacity: nat, parse: Parser, ghost lines: seq<Bytes>) returns (r: Result<seq<Found>, SearchError>)
    requires RegularStream(raw) && AreLines(lines) && Expand(Whole(raw)) == Ok(Join(lines))
    ensures r.Ok? <==> TakeLines(parse, ScanState([], []), lines).Ok?
    ensures r.Ok? ==> r.value == TakeLines(parse, ScanState([], []), lines).value.found
  {
    hide RegularStream, Expand, Join, TakeLines, AreLines, Offset, Between, Decoder.Valid;
    StartBetween(raw, Join(lines));
    ghost var k: nat := 0;
    NothingTaken(parse, ScanState([], []), lines);
    var decoder := new Decoder(raw, capacity);
    var s := ScanState([], []);
    var done := false;
    while !done
      invariant fresh(decoder) && fresh(decoder.buf) && fresh(decoder.buf.data)
      invariant Scanning(decoder, parse, s, lines, k)
      invariant done ==> k == |lines|
      decreases !done, |lines| - k
    {
      var next, n := ScanNext(decoder, parse, s, lines, k);
      match next
      case Err(error) => return Err(error);
      case Ok(None) => done := true;
      case Ok(Some(t)) => s, k := t, n;
    }
    assert lines[..|lines|] == lines;
    return Ok(s.found);
  }

  lemma NothingTaken(parse: Parser, s: ScanState, lines: seq<Bytes>)
    ensures TakeLines(parse, s, lines[..0]) == Ok(s) && Offset(lines, 0) == 0
  {
  }

  lemma NextLines(parse: Parser, s: ScanState, lines: seq<Bytes>, k: nat, n: nat)
    requires k <= n <= |lines| && TakeLines(parse, s, lines[..k]).Ok?
    ensures TakeLines(parse, s, lines[..n]) == TakeLines(parse, TakeLines(parse, s, lines[..k]).value, lines[k..n])
    ensures TakeLines(parse, s, lines[..n]).Err? ==> TakeLines(parse, s, lines).Err?
  {
    assert lines[..k] + lines[k..n] == lines[..n] && lines == lines[..n] + lines[n..];
    TakeConcat(parse, s, lines[..k], lines[k..n]);
    TakeConcat(parse, s, lines[..n], lines[n..]);
  }

  // ---------- the packages of a database ----------

  lemma TakeEntryLine(parse: Parser, s: ScanState, e: FileTreeEntry)
    requires IsEncodable(e)
    ensures TakeLine(parse, s, LineOf(e)) == Ok(s.(entries := s.entries + [e]))
  {
    MetaIsClean(e);
    EntryRoundTrip(e);
    NotAFooter(EncodeMeta(e.node), e.path);
  }

  lemma {:induction false} TakeEntries(parse: Parser, s: ScanState, entries: seq<FileTreeEntry>)
    requires forall e | e in entries :: IsEncodable(e)
    ensures TakeLines(parse, s, EntryLines(entries)) == Ok(s.(entries := s.entries + entries))
  {
    hide IsEncodable, TakeLine, TakeLines;
    if entries == [] {
      assert s.entries + [] == s.entries;
      NothingTaken(parse, s, EntryLines(entries));
      assert EntryLines(entries)[..0] == EntryLines(entries);
    } else {
      var n := |entries| - 1;
      assert EntryLines(entries)[..n] == EntryLines(entries[..n]);
      TakeEntries(parse, s, entries[..n]);
      TakeEntryLine(parse, s.(entries := s.entries + entries[..n]), entries[n]);
      TakeNext(parse, s, EntryLines(entries));
      assert s.entries + entries[..n] + [entries[n]] == s.entries + entries;
    }
  }

  lemma TakeNext(parse: Parser, s: ScanState, lines: seq<Bytes>)
    requires lines != [] && TakeLines(parse, s, lines[..|lines| - 1]).Ok?
    ensures TakeLines(parse, s, lines) == TakeLine(parse, TakeLines(parse, s, lines[..|lines| - 1]).value, lines[|lines| - 1])
  {
  }

  /** What the writer stores: encodable entries, at least one, and JSON that parses back. */
  predicate Storable(parse: Parser, p: Stored) {
    && p.entries != [] && (forall e | e in p.entries :: IsEncodable(e))
    && Clean(p.json) && parse(p.json) == Some(p.store)
  }

  lemma TakeStored(parse: Parser, s: ScanState, p: Stored)
    requires Storable(parse, p) && s.entries == []
    ensures TakeLines(parse, s, StoredLines(p)) == Ok(ScanState(s.found + [Found(p.store, p.entries)], []))
  {
    hide TakeLine, TakeLines, EntryLines, IsEncodable;
    TakeEntries(parse, s, p.entries);
    assert [] + p.entries == p.entries;
    TakeFooterLine(parse, s.(entries := p.entries), p);
    assert StoredLines(p)[..|EntryLines(p.entries)|] == EntryLines(p.entries);
    TakeNext(parse, s, StoredLines(p));
  }

  lemma TakeFooterLine(parse: Parser, s: ScanState, p: Stored)
    requires Storable(parse, p) && s.entries == p.entries
    ensures TakeLine(parse, s, FOOTER_TAG + p.json) == Ok(ScanState(s.found + [Found(p.store, p.entries)], []))
  {
    var footer := FOOTER_TAG + p.json;
    assert footer[..2] == FOOTER_TAG && footer[2..] == p.json;
  }

  function Founds(ps: seq<Stored>): seq<Found> {
    seq(|ps|, i requires 0 <= i < |ps| => Found(ps[i].store, ps[i].entries))
  }

  lemma {:induction false} TakeDatabase(parse: Parser, s: ScanState, ps: seq<Stored>)
    requires (forall p | p in ps :: Storable(parse, p)) && s.entries == []
    ensures TakeLines(parse, s, DatabaseLines(ps)) == Ok(ScanState(s.found + Founds(ps), []))
    decreases |ps|
  {
    hide Storable, StoredLines, TakeLine;
    if ps == [] {
      assert s.found + Founds(ps) == s.found;
    } else {
      TakeStored(parse, s, ps[0]);
      var t := ScanState(s.found + [Found(ps[0].store, ps[0].entries)], []);
      TakeDatabase(parse, t, ps[1..]);
      TakeConcat(parse, s, StoredLines(ps[0]), DatabaseLines(ps[1..]));
      assert t.found + Founds(ps[1..]) == s.found + Founds(ps);
    }
  }

  // ---------- from file trees ----------

  /** A package handed to the writer: its store path and its file tree. */
  datatype Build = Build(store: StorePath, tree: FileTree)

  predicate Excluded(entry: FileTreeEntry, exclude: seq<Bytes>) {
    exists i | 0 <= i < |exclude| :: StartsWith(entry.path, exclude[i])
  }

  /**
   * The entries of a tree that belong in a database, byte by byte: the path begins with the prefix and with nothing
   * excluded, and neither it nor the target of a link holds a zero byte or a newline.
   */
  ghost predicate Belongs(entry: FileTreeEntry, prefix: Bytes, exclude: seq<Bytes>) {
    var path := entry.path;
    && |prefix| <= |path| && (forall k | 0 <= k < |prefix| :: path[k] == prefix[k])
    && (forall x | x in exclude :: |x| > |path| || exists k :: 0 <= k < |x| && path[k] != x[k])
    && (forall k | 0 <= k < |path| :: path[k] != 0 && path[k] != 10)
    && (entry.node.Symlink? ==> forall k | 0 <= k < |entry.node.target| :: entry.node.target[k] != 0 && entry.node.target[k] != 10)
  }

  /** That is what is tested. */
  lemma BelongsWhenTested(entry: FileTreeEntry, prefix: Bytes, exclude: seq<Bytes>)
    ensures Belongs(entry, prefix, exclude) <==> StartsWith(entry.path, prefix) && !Excluded(entry, exclude) && IsEncodable(entry)
  {
    BeginsWith(entry.path, prefix);
    CleanBytes(entry.path);
    if entry.node.Symlink? {
      CleanBytes(entry.node.target);
    }
    forall x | x in exclude ensures StartsWith(entry.path, x) <==> !(|x| > |entry.path| || exists k :: 0 <= k < |x| && entry.path[k] != x[k]) {
      BeginsWith(entry.path, x);
    }
    hide StartsWith, Clean;
    if Excluded(entry, exclude) {
      var i :| 0 <= i < |exclude| && StartsWith(entry.path, exclude[i]);
      assert exclude[i] in exclude;
    } else {
      assert forall x | x in exclude :: !StartsWith(entry.path, x);
    }
  }

  lemma BeginsWith(path: Bytes, prefix: Bytes)
    ensures StartsWith(path, prefix) <==> |prefix| <= |path| && forall k | 0 <= k < |prefix| :: path[k] == prefix[k]
  {
    if |prefix| <= |path| && forall k | 0 <= k < |prefix| :: path[k] == prefix[k] {
      assert path[..|prefix|] == prefix;
    }
  }

  lemma CleanBytes(s: Bytes)
    ensures Clean(s) <==> forall k | 0 <= k < |s| :: s[k] != 0 && s[k] != 10
  {
    if Clean(s) {
      forall k | 0 <= k < |s| ensures s[k] != 0 && s[k] != 10 {
        assert s[k] in s;
      }
    }
  }

  /** How often an entry is in a list. */
  function Occurrences(entries: seq<FileTreeEntry>, e: FileTreeEntry): nat {
    multiset(entries)[e]
  }

  lemma {:induction false} FilteredOccurrences(entries: seq<FileTreeEntry>, prefix: Bytes, e: FileTreeEntry)
    ensures Occurrences(Filtered(entries, prefix), e) == if StartsWith(e.path, prefix) then Occurrences(entries, e) else 0
  {
    if entries != [] {
      FilteredOccurrences(entries[1..], prefix, e);
      assert entries == [entries[0]] + entries[1..];
      var head := if StartsWith(entries[0].path, prefix) then [entries[0]] else [];
      assert Filtered(entries, prefix) == head + Filtered(entries[1..], prefix);
    }
  }

  /**
   * `add_excluding` up to the encoder: of the listing of the tree exactly the entries under the prefix
   * that are not excluded and can be encoded, each as often as it is listed; no package without any.
   */
  method Collect(tree: FileTree, prefix: Bytes, exclude: seq<Bytes>) returns (entries: seq<FileTreeEntry>)
    ensures forall e :: Occurrences(entries, e) == if Belongs(e, prefix, exclude) then Occurrences(Listing([], tree), e) else 0
  {
    var listed := ToList(tree, prefix);
    entries := [];
    hide IsEncodable, Excluded, StartsWith, Belongs;
    for i := 0 to |listed|
      invariant forall e :: Occurrences(entries, e) == if !Excluded(e, exclude) && IsEncodable(e) then Occurrences(listed[..i], e) else 0
    {
      assert listed[..i + 1] == listed[..i] + [listed[i]];
      if !Excluded(listed[i], exclude) && IsEncodable(listed[i]) {
        entries := entries + [listed[i]];
      }
    }
    assert listed[..|listed|] == listed;
    forall e ensures Occurrences(entries, e) == if Belongs(e, prefix, exclude) then Occurrences(Listing([], tree), e) else 0 {
      FilteredOccurrences(Listing([], tree), prefix, e);
      BelongsWhenTested(e, prefix, exclude);
    }
  }

  /** The package that is stored for a build, if any: its kept entries, in some order. */
  ghost predicate StoredFor(p: Stored, b: Build, toJson: StorePath -> Bytes, prefix: Bytes, exclude: seq<Bytes>) {
    && p.store == b.store && p.json == toJson(b.store) && p.entries != []
    && forall e :: Occurrences(p.entries, e) == if Belongs(e, prefix, exclude) then Occurrences(Listing([], b.tree), e) else 0
  }

  /** The build has something to store. */
  ghost predicate HasKept(b: Build, prefix: Bytes, exclude: seq<Bytes>) {
    exists e :: Belongs(e, prefix, exclude) && Occurrences(Listing([], b.tree), e) > 0
  }

  /** JSON of a store path parses back and holds no byte that the stream reserves. */
  ghost predicate JsonWorks(toJson: StorePath -> Bytes, parse: Parser) {
    forall store :: Clean(toJson(store)) && parse(toJson(store)) == Some(store)
  }

  /** The builds that have something to store, in order. */
  ghost function Stores(builds: seq<Build>, prefix: Bytes, exclude: seq<Bytes>): seq<Build> {
    if builds == [] then []
    else
      var n := |builds| - 1;
      Stores(builds[..n], prefix, exclude) + if HasKept(builds[n], prefix, exclude) then [builds[n]] else []
  }

  ghost predicate AllStored(ps: seq<Stored>, builds: seq<Build>, toJson: StorePath -> Bytes, prefix: Bytes, exclude: seq<Bytes>) {
    |ps| == |builds| && forall i | 0 <= i < |ps| :: StoredFor(ps[i], builds[i], toJson, prefix, exclude)
  }

  lemma AddedNext(ps: seq<Stored>, builds: seq<Build>, b: Build, entries: seq<FileTreeEntry>, toJson: StorePath -> Bytes,
                  prefix: Bytes, exclude: seq<Bytes>)
    requires AllStored(ps, Stores(builds, prefix, exclude), toJson, prefix, exclude)
    requires forall e :: Occurrences(entries, e) == if Belongs(e, prefix, exclude) then Occurrences(Listing([], b.tree), e) else 0
    ensures AllStored(if entries != [] then ps + [Stored(b.store, toJson(b.store), entries)] else ps,
                      Stores(builds + [b], prefix, exclude), toJson, prefix, exclude)
  {
    hide Belongs, HasKept, Listing, Occurrences;
    CollectedSome(entries, b, prefix, exclude);
    assert (builds + [b])[..|builds|] == builds;
    assert Stores(builds, prefix, exclude) + [] == Stores(builds, prefix, exclude);
  }

  /** Something is kept exactly when the collected entries are not empty. */
  lemma CollectedSome(entries: seq<FileTreeEntry>, b: Build, prefix: Bytes, exclude: seq<Bytes>)
    requires forall e :: Occurrences(entries, e) == if Belongs(e, prefix, exclude) then Occurrences(Listing([], b.tree), e) else 0
    ensures entries != [] <==> HasKept(b, prefix, exclude)
  {
    hide Belongs, Listing;
    if entries != [] {
      assert entries[0] in multiset(entries);
      assert Occurrences(entries, entries[0]) > 0;
    }
  }

  /** Add every build in order; builds without kept entries are skipped. */
  method AddBuilds(builds: seq<Build>, toJson: StorePath -> Bytes, prefix: Bytes, exclude: seq<Bytes>) returns (ps: seq<Stored>)
    ensures AllStored(ps, Stores(builds, prefix, exclude), toJson, prefix, exclude)
  {
    ps := [];
    assert builds[..0] == [] && AllStored([], Stores([], prefix, exclude), toJson, prefix, exclude);
    hide *;
    for i := 0 to |builds|
      invariant AllStored(ps, Stores(builds[..i], prefix, exclude), toJson, prefix, exclude)
    {
      assert builds[..i + 1] == builds[..i] + [builds[i]];
      var entries := Collect(builds[i].tree, prefix, exclude);
      AddedNext(ps, builds[..i], builds[i], entries, toJson, prefix, exclude);
      if entries != [] {
        ps := ps + [Stored(builds[i].store, toJson(builds[i].store), entries)];
      }
    }
    assert builds[..|builds|] == builds;
  }

  lemma StoredIsStorable(p: Stored, b: Build, toJson: StorePath -> Bytes, prefix: Bytes, exclude: seq<Bytes>, parse: Parser)
    requires StoredFor(p, b, toJson, prefix, exclude) && JsonWorks(toJson, parse)
    ensures Storable(parse, p)
  {
    hide Listing, Belongs;
    forall e | e in p.entries ensures IsEncodable(e) {
      assert e in multiset(p.entries);
      assert Occurrences(p.entries, e) > 0 && Belongs(e, prefix, exclude);
      BelongsWhenTested(e, prefix, exclude);
    }
  }

  /**
   * The round trip of packages: file trees are flattened, filtered, encoded and decoded again, and
   * the scan finds, in order, one package for every build that has something to store, with exactly
   * its kept entries; the i-th one found has ordinal i.
   */
  method WriteThenScan(builds: seq<Build>, toJson: StorePath -> Bytes, parse: Parser, prefix: Bytes, exclude: seq<Bytes>, capacity: nat)
    returns (r: Result<seq<Found>, SearchError>)
    requires JsonWorks(toJson, parse)
    ensures r.Ok? && |r.value| == |Stores(builds, prefix, exclude)|
    ensures forall i | 0 <= i < |r.value| ::
              var b := Stores(builds, prefix, exclude)[i];
              && r.value[i].store == b.store
              && forall e :: Occurrences(r.value[i].entries, e) == if Belongs(e, prefix, exclude) then Occurrences(Listing([], b.tree), e) else 0
  {
    var ps := AddBuilds(builds, toJson, prefix, exclude);
    ghost var kept := Stores(builds, prefix, exclude);
    forall p | p in ps ensures Storable(parse, p) && Readable(AnyQuery(parse), p) {
      var i :| 0 <= i < |ps| && ps[i] == p;
      StoredIsStorable(p, kept[i], toJson, prefix, exclude, parse);
    }
    hide Storable, Readable, Belongs, Listing, Occurrences, Stores, JsonWorks;
    LinesOfDatabase(AnyQuery(parse), ps);
    TakeDatabase(parse, ScanState([], []), ps);
    PrintedStandsForLines(ToPackages(ps));
    var raw := EncodeAll(ToPackages(ps));
    r := ScanPackages(raw.value, capacity, parse, DatabaseLines(ps));
    assert [] + Founds(ps) == Founds(ps);
    StoredEntries(ps, kept, toJson, prefix, exclude);
  }

  lemma StoredEntries(ps: seq<Stored>, builds: seq<Build>, toJson: StorePath -> Bytes, prefix: Bytes, exclude: seq<Bytes>)
    requires AllStored(ps, builds, toJson, prefix, exclude)
    ensures forall i | 0 <= i < |ps| ::
              && Founds(ps)[i].store == builds[i].store
              && forall e :: Occurrences(Founds(ps)[i].entries, e) == if Belongs(e, prefix, exclude) then Occurrences(Listing([], builds[i].tree), e) else 0
  {
    hide Belongs, Listing, Occurrences;
  }

  /** A query with this parser that asks for nothing in particular. */
  function AnyQuery(parse: Parser): Query {
    Query(_ => true, _ => true, parse, None, None, None, None)
  }
}
