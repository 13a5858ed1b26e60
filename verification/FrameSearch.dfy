/**
 * The search of one frame, block by block: candidate lines come from a line matcher, footers are
 * indexed ahead, and entries whose footer lies in a later block are carried over.
 */
module FrameSearch {
  import opened Wrappers
  import opened Bytes
  import opened Files
  import opened StorePaths
  import opened TextLines
  import opened SearchSpec

  // ---------- the line matcher ----------

  /** A candidate position, with or without the promise that its line matches. */
  datatype LineMatch = Confirmed(at: nat) | Candidate(at: nat) | NoLine

  /** A pattern on lines, and the search that proposes candidate lines for it. */
  datatype Matcher = Matcher(matches: Bytes -> bool, findCandidate: Bytes -> LineMatch)

  ghost predicate FoundIn(m: Matcher, lines: seq<Bytes>, found: LineMatch) {
    if found.NoLine? then forall i | 0 <= i < |lines| :: !m.matches(lines[i])
    else exists j | 0 <= j < |lines| :: FoundAt(m, lines, found, j)
  }

  ghost predicate FoundAt(m: Matcher, lines: seq<Bytes>, found: LineMatch, j: nat)
    requires j < |lines|
  {
    && !found.NoLine?
    && Offset(lines, j) <= found.at < Offset(lines, j + 1)
    && (found.Confirmed? ==> m.matches(lines[j]))
    && forall i | 0 <= i < j :: !m.matches(lines[i])
  }

  /** The promise of the line search: no matching line comes before the candidate it proposes. */
  ghost predicate Sound(m: Matcher) {
    forall lines | AreLines(lines) && lines != [] :: FoundIn(m, lines, m.findCandidate(Join(lines)))
  }

  datatype Span = Nowhere | Span(start: nat, end: nat)

  /** A line without its terminator. */
  function Stripped(line: Bytes): Bytes {
    if line != [] && line[|line| - 1] == NEWLINE then line[..|line| - 1] else line
  }

  /** Behind the last newline before `pos`. */
  function LineStart(buf: Bytes, pos: nat): nat
    requires pos <= |buf|
  {
    match LastIndexOf(buf[..pos], NEWLINE)
    case None => 0
    case Some(before) => before + 1
  }

  /** Behind the first newline from `pos` on, or the end of the buffer. */
  function LineEnd(buf: Bytes, pos: nat): (end: nat)
    requires pos <= |buf|
    ensures pos <= end <= |buf|
  {
    var after := IndexOf(buf[pos..], NEWLINE);
    if after == |buf| - pos then |buf| else pos + after + 1
  }

  /** Around a position inside line `j` the two newlines delimit exactly that line. */
  lemma LineAround(lines: seq<Bytes>, j: nat, pos: nat)
    requires AreLines(lines) && j < |lines| && Offset(lines, j) <= pos < Offset(lines, j + 1)
    ensures var buf := Join(lines);
            && pos < |buf|
            && LineStart(buf, pos) == Offset(lines, j) && LineEnd(buf, pos) == Offset(lines, j + 1)
            && Stripped(buf[Offset(lines, j)..Offset(lines, j + 1)]) == lines[j]
  {
    hide Join, Offset;
    var buf := Join(lines);
    LineBounds(lines, j, pos);
    LineAt(lines, j);
    StripTerminator(buf, Offset(lines, j), Offset(lines, j + 1));
  }

  lemma StripTerminator(buf: Bytes, start: nat, end: nat)
    requires start < end <= |buf| && buf[end - 1] == NEWLINE
    ensures Stripped(buf[start..end]) == buf[start..end - 1]
  {
    assert buf[start..end][..end - 1 - start] == buf[start..end - 1];
  }

  /** What a candidate in the rest of the text says about the lines of the whole text. */
  lemma CandidateLine(m: Matcher, lines: seq<Bytes>, j: nat, found: LineMatch) returns (n: nat)
    requires j <= |lines| && FoundIn(m, lines[j..], found)
    ensures found.NoLine? ==> forall i | j <= i < |lines| :: !m.matches(lines[i])
    ensures !found.NoLine? ==>
              && j <= n < |lines| && Offset(lines, n) <= Offset(lines, j) + found.at < Offset(lines, n + 1)
              && (found.Confirmed? ==> m.matches(lines[n]))
              && forall i | j <= i < n :: !m.matches(lines[i])
  {
    hide Join, Offset;
    var rest := lines[j..];
    assert forall i | j <= i < |lines| :: lines[i] == rest[i - j];
    if found.NoLine? {
      n := j;
    } else {
      var k :| 0 <= k < |rest| && FoundAt(m, rest, found, k);
      OffsetShift(lines, j, k);
      OffsetShift(lines, j, k + 1);
      n := j + k;
    }
  }

  /**
   * `next_matching_line`: the first line from `start` on that matches. An unconfirmed candidate is
   * checked and, if it fails, the search goes on behind its line.
   */
  method NextMatchingLine(m: Matcher, buf: Bytes, start: nat, ghost lines: seq<Bytes>, ghost k: nat)
    returns (r: Span, ghost j: nat)
    requires Sound(m) && AreLines(lines) && buf == Join(lines) && k <= |lines| && start == Offset(lines, k)
    ensures r.Nowhere? ==> forall i | k <= i < |lines| :: !m.matches(lines[i])
    ensures r.Span? ==> k <= j < |lines| && r == Span(Offset(lines, j), Offset(lines, j + 1)) && r.end <= |buf|
                        && m.matches(lines[j]) && forall i | k <= i < j :: !m.matches(lines[i])
  {
    hide Join, Offset, FoundIn, Stripped, LineStart, LineEnd;
    var from := start;
    j := k;
    JoinAt(lines, j);
    while true
      invariant k <= j <= |lines| && from == Offset(lines, j) <= |buf| && buf[from..] == Join(lines[j..])
      invariant forall i | k <= i < j :: !m.matches(lines[i])
      decreases |lines| - j
    {
      var candidate := m.findCandidate(buf[from..]);
      if from == |buf| {
        FullOffset(lines, j);
        return Nowhere, j;
      }
      RestNotEmpty(lines, j);
      ghost var n := CandidateLine(m, lines, j, candidate);
      if candidate.NoLine? {
        return Nowhere, j;
      }
      var pos := from + candidate.at;
      LineAround(lines, n, pos);
      var lineStart, lineEnd := LineStart(buf, pos), LineEnd(buf, pos);
      if candidate.Confirmed? || m.matches(Stripped(buf[lineStart..lineEnd])) {
        return Span(lineStart, lineEnd), n;
      }
      assert forall i | k <= i < n :: !m.matches(lines[i]);
      assert !m.matches(lines[n]);
      from := lineEnd;
      j := n + 1;
      JoinAt(lines, j);
    }
  }

  lemma RestNotEmpty(lines: seq<Bytes>, j: nat)
    requires AreLines(lines) && j <= |lines| && Offset(lines, j) < |Join(lines)|
    ensures lines[j..] != [] && AreLines(lines[j..])
  {
    assert lines[..|lines|] == lines;
  }

  lemma FullOffset(lines: seq<Bytes>, j: nat)
    requires j <= |lines| && Offset(lines, j) == |Join(lines)|
    ensures j == |lines|
  {
    OffsetMonotone(lines, j, |lines|);
    assert lines[..|lines|] == lines;
  }

  lemma OffsetShift(lines: seq<Bytes>, j: nat, n: nat)
    requires j + n <= |lines|
    ensures Offset(lines, j) + Offset(lines[j..], n) == Offset(lines, j + n)
  {
    JoinConcat(lines[..j], lines[j..][..n]);
    assert lines[..j] + lines[j..][..n] == lines[..j + n];
  }

  // ---------- indexing footers ----------

  /** Where a footer line ends, its global ordinal, and where its JSON lies in the block. */
  datatype Footer = Footer(end: nat, ordinal: nat, jsonStart: nat, jsonEnd: nat)

  function FooterAt(lines: seq<Bytes>, i: nat, ordinal: nat): Footer
    requires i < |lines|
  {
    Footer(Offset(lines, i + 1), ordinal, Offset(lines, i) + 2, Offset(lines, i + 1) - 1)
  }

  /** The index holds the footers before line `k`, numbered from `ordinal` on. */
  ghost predicate Indexed(lines: seq<Bytes>, k: nat, ordinal: nat, footers: seq<Footer>)
    requires k <= |lines|
  {
    && |footers| == |FooterLines(lines, k)|
    && forall m | 0 <= m < |footers| :: footers[m] == FooterAt(lines, FooterLines(lines, k)[m], ordinal + m)
  }

  ghost predicate NoFooter(lines: seq<Bytes>, k: nat, j: nat) {
    k <= j <= |lines| && forall i | k <= i < j :: !IsFooter(lines[i])
  }

  lemma {:induction false} NoFooterBetween(lines: seq<Bytes>, k: nat, j: nat)
    requires NoFooter(lines, k, j)
    ensures FooterLines(lines, j) == FooterLines(lines, k)
    decreases j - k
  {
    if k < j {
      NoFooterBetween(lines, k, j - 1);
    }
  }

  lemma IndexNext(lines: seq<Bytes>, k: nat, j: nat, ordinal: nat, footers: seq<Footer>, footer: Footer)
    requires NoFooter(lines, k, j) && j < |lines| && IsFooter(lines[j])
    requires Indexed(lines, k, ordinal, footers) && footer == FooterAt(lines, j, ordinal + |footers|)
    ensures Indexed(lines, j + 1, ordinal, footers + [footer])
  {
    NoFooterBetween(lines, k, j);
    assert FooterLines(lines, j + 1) == FooterLines(lines, k) + [j];
  }

  lemma IndexedToEnd(lines: seq<Bytes>, k: nat, ordinal: nat, footers: seq<Footer>)
    requires NoFooter(lines, k, |lines|) && Indexed(lines, k, ordinal, footers)
    ensures Indexed(lines, |lines|, ordinal, footers)
  {
    NoFooterBetween(lines, k, |lines|);
  }

  lemma IndexedSoFar(lines: seq<Bytes>, k: nat, ordinal: nat, footers: seq<Footer>)
    requires k <= |lines| && Indexed(lines, k, ordinal, footers)
    ensures |footers| <= |FooterLines(lines, |lines|)|
  {
    hide NextFooter;
    NextFooterLine(lines, k, |lines|);
  }

  /** The matcher of the package search stands for footers. */
  ghost predicate FindsFooters(m: Matcher) {
    Sound(m) && forall line :: m.matches(line) <==> IsFooter(line)
  }

  /** The next footer line of a block, and what the index is worth with that footer added. */
  method NextFooterSpan(m: Matcher, block: Bytes, pos: nat, ghost lines: seq<Bytes>, ghost k: nat,
                        ghost ordinal: nat, ghost footers: seq<Footer>)
    returns (r: Span, ghost n: nat)
    requires FindsFooters(m) && AreLines(lines) && block == Join(lines) && k <= |lines| && pos == Offset(lines, k)
    requires Indexed(lines, k, ordinal, footers)
    ensures r.Nowhere? ==> Indexed(lines, |lines|, ordinal, footers)
    ensures r.Span? ==> r.start + 2 <= r.end - 1 && k < n <= |lines| && r.end == Offset(lines, n)
                        && Indexed(lines, n, ordinal, footers + [Footer(r.end, ordinal + |footers|, r.start + 2, r.end - 1)])
  {
    hide Join, Sound, Indexed;
    ghost var j;
    r, j := NextMatchingLine(m, block, pos, lines, k);
    n := j + 1;
    if r.Nowhere? {
      IndexedToEnd(lines, k, ordinal, footers);
    } else {
      IndexNext(lines, k, j, ordinal, footers, FooterAt(lines, j, ordinal + |footers|));
    }
  }

  /** Collect every footer of a block; gives up exactly when the ordinals run past the largest one. */
  method IndexFooters(m: Matcher, block: Bytes, ordinal: nat, ghost lines: seq<Bytes>)
    returns (overflow: bool, current: nat, footers: seq<Footer>)
    requires FindsFooters(m) && AreLines(lines) && block == Join(lines)
    ensures !overflow ==> Indexed(lines, |lines|, ordinal, footers) && current == ordinal + |footers|
    ensures !overflow && footers != [] ==> current <= MAX_ORDINAL
    ensures overflow ==> FooterLines(lines, |lines|) != [] && ordinal + |FooterLines(lines, |lines|)| > MAX_ORDINAL
  {
    footers, overflow, current := [], false, ordinal;
    NothingIndexed(lines, ordinal);
    hide *;
    var pos := 0;
    ghost var k := 0;
    while true
      invariant k <= |lines| && pos == Offset(lines, k)
      invariant Indexed(lines, k, ordinal, footers) && current == ordinal + |footers|
      invariant footers != [] ==> current <= MAX_ORDINAL
      decreases |lines| - k
    {
      var found, n := NextFooterSpan(m, block, pos, lines, k, ordinal, footers);
      if found.Nowhere? {
        return false, current, footers;
      }
      var jsonStart, jsonEnd := found.start + 2, found.end - 1;
      if jsonStart <= jsonEnd {
        footers := footers + [Footer(found.end, current, jsonStart, jsonEnd)];
        if current + 1 > MAX_ORDINAL {
          IndexedSoFar(lines, n, ordinal, footers);
          return true, current, footers;
        }
        current := current + 1;
      }
      pos, k := found.end, n;
    }
  }

  lemma NothingIndexed(lines: seq<Bytes>, ordinal: nat)
    ensures Indexed(lines, 0, ordinal, []) && Offset(lines, 0) == 0
  {
  }

  /** The JSON that an indexed footer delimits is the JSON of its line. */
  lemma FooterJson(lines: seq<Bytes>, i: nat)
    requires i < |lines| && IsFooter(lines[i])
    ensures Offset(lines, i) + 2 <= Offset(lines, i + 1) - 1 <= |Join(lines)|
    ensures Join(lines)[Offset(lines, i) + 2..Offset(lines, i + 1) - 1] == Json(lines[i])
  {
    hide Join;
    LineAt(lines, i);
    var start, end := Offset(lines, i), Offset(lines, i + 1) - 1;
    assert Join(lines)[start..end][2..] == Join(lines)[start + 2..end];
  }

  // ---------- one block ----------

  /** The matcher of the path search stands for the line pattern of the query. */
  ghost predicate FindsEntries(m: Matcher, q: Query) {
    Sound(m) && forall line :: m.matches(line) <==> q.lineMatches(line)
  }

  class FrameSearcher {
    const q: Query
    const pathMatcher: Matcher
    const packageMatcher: Matcher

    var matches: seq<Hit>
    var foundWithoutPackage: seq<FileTreeEntry>
    var currentOrdinal: nat

    /** Both matchers keep their promise and stand for the patterns of the query. */
    ghost predicate Valid() {
      && FindsEntries(pathMatcher, q)
      && FindsFooters(packageMatcher)
    }

    ghost function State(): Progress
      reads this
    {
      Progress(matches, foundWithoutPackage, currentOrdinal)
    }

    constructor (q: Query, pathMatcher: Matcher, packageMatcher: Matcher, start: Option<nat>)
      ensures this.q == q && this.pathMatcher == pathMatcher && this.packageMatcher == packageMatcher
      ensures State() == Progress([], [], if start.Some? then start.value else 0)
    {
      this.q, this.pathMatcher, this.packageMatcher := q, pathMatcher, packageMatcher;
      matches, foundWithoutPackage := [], [];
      currentOrdinal := if start.Some? then start.value else 0;
    }

    /** Entries carried over from earlier blocks go to the first footer of this one. */
    method ResolveCarried(block: Bytes, footers: seq<Footer>, ghost lines: seq<Bytes>, ghost s: Progress)
      returns (r: Result<(), SearchError>)
      requires block == Join(lines) && Indexed(lines, |lines|, s.ordinal, footers)
      requires s.matches == matches && s.pending == foundWithoutPackage
      modifies this`matches, this`foundWithoutPackage
      ensures r.Err? <==> Settle(q, s, lines, 0).Broken?
      ensures r != Err(MissingPackageEntry)
      ensures r.Ok? ==> Settle(q, s, lines, 0) == Settled(matches, foundWithoutPackage)
    {
      NextFooterLine(lines, 0, |lines|);
      if foundWithoutPackage != [] && footers != [] {
        FooterJson(lines, NextFooter(lines, 0));
        var footer := footers[0];
        var json := block[footer.jsonStart..footer.jsonEnd];
        match q.parse(json)
        case None => return Err(StorePathParse(json));
        case Some(package) =>
          if q.Accepts(package, footer.ordinal) {
            matches := matches + Attach(package, foundWithoutPackage);
          }
          foundWithoutPackage := [];
      }
      return Ok(());
    }

    /** Move on to the first footer that ends behind the line `j`, which is not a footer itself. */
    method AdvanceFooter(footers: seq<Footer>, from: nat, lineEnd: nat, ghost lines: seq<Bytes>, ghost j: nat, ghost ordinal: nat)
      returns (footerIdx: nat)
      requires j < |lines| && lineEnd == Offset(lines, j + 1)
      requires Indexed(lines, |lines|, ordinal, footers) && from <= |FooterLines(lines, j + 1)|
      ensures footerIdx == |FooterLines(lines, j + 1)| <= |footers|
    {
      hide *;
      FootersUpTo(lines, footers, ordinal, j);
      footerIdx := from;
      while footerIdx < |footers| && footers[footerIdx].end <= lineEnd
        invariant footerIdx <= |FooterLines(lines, j + 1)|
        decreases |footers| - footerIdx
      {
        footerIdx := footerIdx + 1;
      }
    }

    /** The package of a footer, parsed once for a run of entries that share it. */
    method PackageOf(block: Bytes, footer: Footer, footerIdx: nat, cachedIdx: Option<nat>, cached: Option<StorePath>,
                     ghost lines: seq<Bytes>, ghost i: nat)
      returns (r: Result<StorePath, SearchError>)
      requires block == Join(lines) && i < |lines| && IsFooter(lines[i]) && footer == FooterAt(lines, i, footer.ordinal)
      requires cachedIdx == Some(footerIdx) ==> cached.Some? && cached == q.parse(Json(lines[i]))
      ensures r == match q.parse(Json(lines[i])) case None => Err(StorePathParse(Json(lines[i]))) case Some(p) => Ok(p)
    {
      FooterJson(lines, i);
      if cachedIdx == Some(footerIdx) {
        return Ok(cached.value);
      }
      var json := block[footer.jsonStart..footer.jsonEnd];
      match q.parse(json)
      case None => return Err(StorePathParse(json));
      case Some(package) => return Ok(package);
    }

    /** A matching entry waits when no footer follows it, and otherwise is reported if its package passes. */
    method TakeEntry(block: Bytes, footers: seq<Footer>, footerIdx: nat, entry: FileTreeEntry,
                     cachedIdx: Option<nat>, cached: Option<StorePath>,
                     ghost lines: seq<Bytes>, ghost s: Progress, ghost j: nat)
      returns (r: Result<(), SearchError>, newIdx: Option<nat>, newCached: Option<StorePath>)
      requires block == Join(lines) && j < |lines|
      requires Indexed(lines, |lines|, s.ordinal, footers) && EnoughOrdinals(s, lines)
      requires footerIdx == |FooterLines(lines, j + 1)|
      requires AtLine(q, s, lines, j, matches, foundWithoutPackage)
      requires !IsFooter(lines[j]) && q.lineMatches(lines[j]) && EntryOn(q, lines[j]) == Ok(Some(entry))
      requires cachedIdx.Some? ==> CachedRight(q, footers, cachedIdx.value, cached, lines)
      modifies this`matches, this`foundWithoutPackage
      ensures r.Err? ==> ScanLines(q, s, lines).Err? && r.error != MissingPackageEntry
      ensures r.Ok? ==> AtLine(q, s, lines, j + 1, matches, foundWithoutPackage)
      ensures r.Ok? && newIdx.Some? ==> CachedRight(q, footers, newIdx.value, newCached, lines)
    {
      hide Join, AtLine, EnoughOrdinals, ScanLines, NextFooter, EntryOn, IsFooter;
      newIdx, newCached := cachedIdx, cached;
      TakeLine(q, s, lines, j, matches, foundWithoutPackage, entry);
      NextFooterLine(lines, j + 1, |lines|);
      if footerIdx >= |footers| {
        foundWithoutPackage := foundWithoutPackage + [entry];
        return Ok(()), newIdx, newCached;
      }
      var footer := footers[footerIdx];
      var package := PackageOf(block, footer, footerIdx, cachedIdx, cached, lines, NextFooter(lines, j + 1));
      if package.Err? {
        return Err(package.error), newIdx, newCached;
      }
      newIdx, newCached := Some(footerIdx), Some(package.value);
      if q.Accepts(package.value, footer.ordinal) {
        matches := matches + [(package.value, entry)];
      }
      return Ok(()), newIdx, newCached;
    }

    /** The scan of a block for matching entries. */
    method MatchEntries(block: Bytes, footers: seq<Footer>, ghost lines: seq<Bytes>, ghost s: Progress)
      returns (r: Result<(), SearchError>)
      requires Valid() && AreLines(lines) && block == Join(lines)
      requires Indexed(lines, |lines|, s.ordinal, footers) && EnoughOrdinals(s, lines)
      requires AtLine(q, s, lines, 0, matches, foundWithoutPackage)
      modifies this`matches, this`foundWithoutPackage
      ensures r.Err? ==> ScanLines(q, s, lines).Err? && r.error != MissingPackageEntry
      ensures r.Ok? ==> ScanLines(q, s, lines) == Ok(Progress(matches, foundWithoutPackage, s.ordinal + |footers|))
    {
      hide Join, Sound, AtLine, EnoughOrdinals, ScanLines, NextFooter, EntryOn, IsFooter, CachedRight;
      var pos: nat, footerIdx: nat := 0, 0;
      var cachedIdx: Option<nat>, cached: Option<StorePath> := None, None;
      ghost var k := 0;
      while true
        invariant k <= |lines| && pos == Offset(lines, k)
        invariant AtLine(q, s, lines, k, matches, foundWithoutPackage)
        invariant footerIdx <= |FooterLines(lines, k)|
        invariant cachedIdx.Some? ==> CachedRight(q, footers, cachedIdx.value, cached, lines)
        decreases |lines| - k
      {
        var found, j := NextMatchingLine(pathMatcher, block, pos, lines, k);
        if found.Nowhere? {
          SkipLines(q, s, lines, k, |lines|, matches, foundWithoutPackage);
          AtEnd(q, s, lines, matches, foundWithoutPackage);
          return Ok(());
        }
        SkipLines(q, s, lines, k, j, matches, foundWithoutPackage);
        FootersMonotone(lines, k, j + 1);
        pos := found.end;
        k := j + 1;
        LineAt(lines, j);
        var line := block[found.start..found.end - 1];
        if packageMatcher.matches(line) {
          SkipLine(q, s, lines, j, matches, foundWithoutPackage);
          continue;
        }
        footerIdx := AdvanceFooter(footers, footerIdx, found.end, lines, j, s.ordinal);
        match EntryOn(q, line)
        case Err(e) =>
          BadLine(q, s, lines, j, matches, foundWithoutPackage);
          return Err(e);
        case Ok(None) =>
          SkipLine(q, s, lines, j, matches, foundWithoutPackage);
        case Ok(Some(entry)) =>
          r, cachedIdx, cached := TakeEntry(block, footers, footerIdx, entry, cachedIdx, cached, lines, s, j);
          if r.Err? {
            return r;
          }
      }
    }

    /**
     * One decoded block: index its footers, settle what was carried over, then match. For whole lines
     * this is the one-pass scan of those lines from the state before, also where that fails.
     */
    method SearchBlock(block: Bytes, ghost lines: seq<Bytes>) returns (r: Result<(), SearchError>)
      requires Valid() && AreLines(lines) && block == Join(lines)
      modifies this
      ensures r.Ok? <==> ScanLines(q, old(State()), lines).Ok?
      ensures r != Err(MissingPackageEntry)
      ensures r.Ok? ==> ScanLines(q, old(State()), lines) == Ok(State())
    {
      hide Join, Sound, AtLine, ScanLines;
      ghost var s := State();
      var overflow, next, footers := IndexFooters(packageMatcher, block, currentOrdinal, lines);
      if overflow {
        TooManyFooters(q, s, lines);
        return Err(OrdinalOverflow);
      }
      currentOrdinal := next;
      AtStart(q, s, lines);
      r := ResolveCarried(block, footers, lines, s);
      if r.Ok? {
        r := MatchEntries(block, footers, lines, s);
      }
    }
  }

  /** The cached package is the one of the footer it was cached for. */
  ghost predicate CachedRight(q: Query, footers: seq<Footer>, idx: nat, cached: Option<StorePath>, lines: seq<Bytes>) {
    && idx < |footers| == |FooterLines(lines, |lines|)|
    && cached.Some? && cached == q.parse(Json(lines[FooterLines(lines, |lines|)[idx]]))
  }

  lemma FootersMonotone(lines: seq<Bytes>, k: nat, n: nat)
    requires k <= n <= |lines|
    ensures FooterLines(lines, k) <= FooterLines(lines, n) <= FooterLines(lines, |lines|)
  {
    NextFooterLine(lines, k, n);
    NextFooterLine(lines, n, |lines|);
  }

  /** The footers that end no later than a line are the ones up to it. */
  lemma FootersUpTo(lines: seq<Bytes>, footers: seq<Footer>, ordinal: nat, j: nat)
    requires j < |lines| && Indexed(lines, |lines|, ordinal, footers)
    ensures |FooterLines(lines, j + 1)| <= |footers|
    ensures forall m | 0 <= m < |footers| :: footers[m].end <= Offset(lines, j + 1) <==> m < |FooterLines(lines, j + 1)|
  {
    hide Offset, FooterLines, NextFooter;
    var upTo, all := FooterLines(lines, j + 1), FooterLines(lines, |lines|);
    NextFooterLine(lines, j + 1, |lines|);
    forall m | 0 <= m < |footers| ensures footers[m].end <= Offset(lines, j + 1) <==> m < |upTo| {
      if m < |upTo| {
        OffsetMonotone(lines, upTo[m] + 1, j + 1);
      } else {
        LaterFooter(lines, j + 1, m);
        OffsetMonotone(lines, j + 1, all[m]);
        OffsetNext(lines, all[m]);
      }
    }
  }

  lemma OffsetNext(lines: seq<Bytes>, k: nat)
    requires k < |lines|
    ensures Offset(lines, k) < Offset(lines, k + 1)
  {
  }

  /** Footers beyond those before line `k` are at line `k` or later. */
  lemma LaterFooter(lines: seq<Bytes>, k: nat, m: nat)
    requires k <= |lines| && |FooterLines(lines, k)| <= m < |FooterLines(lines, |lines|)|
    ensures k <= FooterLines(lines, |lines|)[m]
  {
    LaterFooterUpTo(lines, k, |lines|, m);
  }

  lemma {:induction false} LaterFooterUpTo(lines: seq<Bytes>, k: nat, n: nat, m: nat)
    requires k <= n <= |lines| && |FooterLines(lines, k)| <= m < |FooterLines(lines, n)|
    ensures k <= FooterLines(lines, n)[m]
    decreases n
  {
    if k < n && m < |FooterLines(lines, n - 1)| {
      LaterFooterUpTo(lines, k, n - 1, m);
    }
  }
}
