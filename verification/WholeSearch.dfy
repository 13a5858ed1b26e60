/** A database from its packages to the results of a search: written, opened, indexed and searched. */
module WholeSearch {
  import opened Wrappers
  import opened Bytes
  import opened FrameSearch
  import opened SearchSpec
  import opened PackageSearch
  import opened DatabaseRoundTrip
  import opened LiteralSearch
  import opened PathTable
  import opened Blobs
  import opened EntryIndex
  import opened ResultOrder
  import opened SearchPlan
  import opened PlainQueries
  import NgramCache
  import D = Database

  datatype WholeError = NotWritten(RoundTripError) | NotIndexed(GenerateError) | NotSearched(D.DatabaseError)

  /** What is known of the packages, the query and its matchers. */
  ghost predicate Given(ps: seq<Stored>, a: Asked, q: Query, pathMatcher: Matcher, packageMatcher: Matcher,
                        resolve: Bytes -> Option<set<nat>>) {
    && |ps| <= D.U32_MAX && ProperPaths(ps) && (forall p | p in ps :: Readable(q, p))
    && Searches(q, a) && q.labels.None? && FindsEntries(pathMatcher, q) && FindsFooters(packageMatcher)
    && Knows(resolve, PathsOf(ps)) && NgramCache.NothingForNul(resolve)
  }

  /** Write the database and open it again; it then stands for its packages. */
  method WriteAndOpen(ps: seq<Stored>, q: Query, parallelism: nat, compress: Bytes -> Bytes, decompress: Bytes -> Option<Bytes>)
    returns (r: Result<D.Reader, RoundTripError>, ghost cuts: seq<nat>)
    requires parallelism > 0 && D.RoundTrips(compress, decompress) && |ps| <= D.U32_MAX
    requires forall p | p in ps :: Readable(q, p)
    ensures r.Ok? <==> D.FitsFormat(Pieces(ps), parallelism, compress)
    ensures r.Ok? ==> D.StandsFor(r.value, decompress, ps, cuts)
  {
    hide D.RoundTrips, D.FitsFormat, D.StandsFor, Pieces, Readable;
    CleanOneByOne(q, ps);
    var written, data, mapFile, frames, map_, lens := Write(ps, parallelism, compress);
    if written.Err? {
      cuts := [];
      return Err(written.error), cuts;
    }
    var reader;
    reader, cuts := Reopen(data, mapFile, ps, compress, decompress, frames, map_, lens);
    return Ok(reader), cuts;
  }

  /**
   * Whenever the packages fit the database and its indexes, a plain query is answered, and for a reliable one
   * with the shown hits of a full scan, in the requested order and up to the limit.
   */
  method WriteThenSearch(ps: seq<Stored>, labels: seq<Bytes>, parallelism: nat, compress: Bytes -> Bytes,
                         decompress: Bytes -> Option<Bytes>, codec: Codec, entryCodec: EntryCodec, a: Asked, q: Query, o: Options,
                         sort: SearchSort, limit: Option<nat>, pathMatcher: Matcher, packageMatcher: Matcher,
                         resolve: Bytes -> Option<set<nat>>, capacity: nat)
    returns (r: Result<seq<Hit>, WholeError>)
    requires Given(ps, a, q, pathMatcher, packageMatcher, resolve) && parallelism > 0 && |labels| == |ps|
    requires D.RoundTrips(compress, decompress) && Lossless(codec) && Exact(entryCodec)
    ensures D.FitsFormat(Pieces(ps), parallelism, compress) && !SidecarTooLarge(ps, labels, codec, entryCodec) ==> r.Ok?
    ensures r.Ok? && Reliable(a) ==> Presents(r.value, Shown(q, o, ps), sort, limit)
  {
    NoNul(ps);
    hide D.RoundTrips, D.FitsFormat, D.StandsFor, Pieces, Lossless, Exact, SidecarTooLarge, Generated, Knows, NgramCache.NothingForNul,
         ProperPaths, Readable, Searches, FindsEntries, FindsFooters, Presents, Shown, Reliable, PathsOf, NgramCache.Right;
    var opened_, cuts := WriteAndOpen(ps, q, parallelism, compress, decompress);
    if opened_.Err? {
      return Err(NotWritten(opened_.error));
    }
    var sidecars := GenerateSidecars(ps, labels, codec, entryCodec);
    if sidecars.Err? {
      return Err(NotIndexed(sidecars.error));
    }
    var cache := new NgramCache.Cache();
    EmptyIsRight(resolve);
    var found := SearchPlain(a, opened_.value, sidecars.value, cache, resolve, q, o, sort, limit, pathMatcher, packageMatcher,
                             decompress, capacity, ps, cuts);
    return Ok(found.value);
  }

  lemma NoNul(ps: seq<Stored>)
    requires ProperPaths(ps)
    ensures forall p, e | p in ps && e in p.entries :: NUL !in e.path
  {
    forall p, e | p in ps && e in p.entries ensures NUL !in e.path {
      var i :| 0 <= i < |ps| && ps[i] == p;
      var k :| 0 <= k < |p.entries| && p.entries[k] == e;
      assert PathsOf(ps)[i][k] == e.path;
      assert e.path in PathsOf(ps)[i] && Proper(e.path);
    }
  }

  lemma EmptyIsRight(resolve: Bytes -> Option<set<nat>>)
    ensures NgramCache.Right(map[], resolve)
  {
  }
}
