/** The search of a whole frame: decode a block, search it, until the stream is empty. */
module StreamSearch {
  import opened Wrappers
  import opened Bytes
  import opened FrcodeFormat
  import opened FrcodeBlocks
  import opened FrcodeDecoder
  import opened FrcodeStream
  import opened TextLines
  import opened SearchSpec
  import opened FrameSearch

  /** A block of the text behind whole lines is the join of the next whole lines. */
  lemma BlockLines(lines: seq<Bytes>, k: nat, to: nat) returns (n: nat)
    requires AreLines(lines) && k <= |lines| && Offset(lines, k) < to <= |Join(lines)|
    requires WholeLines(Join(lines)[Offset(lines, k)..to])
    ensures k <= n <= |lines| && Offset(lines, n) == to
    ensures Join(lines)[Offset(lines, k)..to] == Join(lines[k..n])
  {
    n := CutIsOffset(lines, to);
    if n < k {
      OffsetMonotone(lines, n, k);
    }
    JoinBetween(lines, k, n);
  }

  /** Scanning the lines of one more block continues the scan. */
  lemma ScanBlock(q: Query, s: Progress, lines: seq<Bytes>, k: nat, n: nat)
    requires k <= n <= |lines| && ScanLines(q, s, lines[..k]).Ok?
    ensures ScanLines(q, s, lines[..n]) == ScanLines(q, ScanLines(q, s, lines[..k]).value, lines[k..n])
    ensures ScanLines(q, s, lines[..n]).Err? ==> ScanLines(q, s, lines).Err?
  {
    assert lines[..k] + lines[k..n] == lines[..n];
    ScanConcat(q, s, lines[..k], lines[k..n]);
    ScanStops(q, s, lines, n);
  }

  lemma SomeLines(lines: seq<Bytes>, k: nat, n: nat)
    requires AreLines(lines) && k <= n <= |lines|
    ensures AreLines(lines[k..n])
  {
  }

  function Begin(start: Option<nat>): Progress {
    Progress([], [], if start.Some? then start.value else 0)
  }

  datatype Turn = More | Finished | Failed(error: SearchError)

  /** Between two blocks: the decoder has handed out the first `k` lines, and the searcher has scanned them. */
  ghost predicate Searching(decoder: Decoder, searcher: FrameSearcher, s: Progress, lines: seq<Bytes>, k: nat)
    reads decoder, decoder.buf, decoder.buf.data, searcher
  {
    && AreLines(lines) && k <= |lines|
    && decoder.On(Join(lines)) && decoder.Emitted() == Offset(lines, k)
    && searcher.Valid()
    && ScanLines(searcher.q, s, lines[..k]) == Ok(searcher.State())
  }

  /** One block: decode it and search its lines; an empty block ends the stream. */
  method SearchNext(decoder: Decoder, searcher: FrameSearcher, ghost s: Progress, ghost lines: seq<Bytes>, ghost k: nat)
    returns (turn: Turn, ghost n: nat)
    requires Searching(decoder, searcher, s, lines, k)
    modifies decoder, decoder.buf, decoder.buf.data, searcher
    ensures decoder.buf.data == old(decoder.buf.data) || fresh(decoder.buf.data)
    ensures turn.Failed? ==> ScanLines(searcher.q, s, lines).Err? && turn.error != MissingPackageEntry
    ensures !turn.Failed? ==> Searching(decoder, searcher, s, lines, n) && n >= k
    ensures turn.More? ==> n > k
    ensures turn.Finished? ==> n == |lines|
  {
    hide Join, ScanLines, AreLines, Offset, Between, FindsEntries, FindsFooters, WholeLines, FrameSearcher.Valid;
    hide Decoder.Valid, Decoder.Emitted;
    ghost var goal := Join(lines);
    var decoded := decoder.Decode(Some(goal));
    var block := decoded.value;
    if block == [] {
      FullOffset(lines, k);
      return Finished, |lines|;
    }
    BlockIsLines(decoder, Offset(lines, k), goal);
    n := BlockLines(lines, k, decoder.Emitted());
    SomeLines(lines, k, n);
    ScanBlock(searcher.q, s, lines, k, n);
    var searched := searcher.SearchBlock(block, lines[k..n]);
    return if searched.Err? then Turn.Failed(searched.error) else More, n;
  }

  /**
   * `search_frame_decoder` on a regular stream. However the decoder cuts the lines into blocks, and
   * whatever capacity its buffer starts with, the hits are those of the one-pass search of all lines;
   * the search fails exactly when that fails, and for want of a footer exactly when that does.
   */
  method SearchFrame(raw: Bytes, capacity: nat, q: Query, pathMatcher: Matcher, packageMatcher: Matcher,
                     start: Option<nat>, ghost lines: seq<Bytes>)
    returns (r: Result<seq<Hit>, SearchError>)
    requires RegularStream(raw) && AreLines(lines) && Expand(Whole(raw)) == Ok(Join(lines))
    requires FindsEntries(pathMatcher, q) && FindsFooters(packageMatcher)
    ensures r.Ok? <==> SearchLines(q, Begin(start), lines).Ok?
    ensures r.Ok? ==> r.value == SearchLines(q, Begin(start), lines).value
    ensures r == Err(MissingPackageEntry) <==>
              ScanLines(q, Begin(start), lines).Ok? && ScanLines(q, Begin(start), lines).value.pending != []
  {
    hide RegularStream, Expand, Join, ScanLines, FindsEntries, FindsFooters, AreLines, Offset, Between;
    StartBetween(raw, Join(lines));
    ghost var s, k := Begin(start), 0;
    NothingScanned(q, s, lines);
    var decoder := new Decoder(raw, capacity);
    var searcher := new FrameSearcher(q, pathMatcher, packageMatcher, start);
    var turn: Turn := More;
    while turn.More?
      invariant fresh(decoder) && fresh(decoder.buf) && fresh(decoder.buf.data) && fresh(searcher)
      invariant !turn.Failed? && searcher.q == q
      invariant Searching(decoder, searcher, s, lines, k)
      invariant turn.Finished? ==> k == |lines|
      decreases turn.More?, |lines| - k
    {
      turn, k := SearchNext(decoder, searcher, s, lines, k);
      if turn.Failed? {
        return Err(turn.error);
      }
    }
    assert lines[..|lines|] == lines;
    return if searcher.foundWithoutPackage != [] then Err(MissingPackageEntry) else Ok(searcher.matches);
  }

  lemma NothingScanned(q: Query, s: Progress, lines: seq<Bytes>)
    ensures ScanLines(q, s, lines[..0]) == Ok(s) && Offset(lines, 0) == 0
  {
  }
}
