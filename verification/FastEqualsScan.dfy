/** The fast search over the sidecars of a database and the full scan of that database agree. */
module FastEqualsScan {
  import opened Wrappers
  import opened Bytes
  import opened Files
  import opened StorePaths
  import opened SearchSpec
  import opened PackageSearch
  import opened ByteOrder
  import opened FrameWriter
  import opened Postings
  import opened Trigrams
  import opened PathTable
  import opened PathTableFile
  import opened PathTableLookup
  import opened LiteralSearch
  import opened RegexLiteral

  /** Everything that the sidecar generator records when it scans these packages. */
  function LogOf(ps: seq<Stored>): seq<Hit> {
    if ps == [] then []
    else
      var n := |ps| - 1;
      LogOf(ps[..n]) + Attach(ps[n].store, WithPath(ps[n].entries))
  }

  /** The scan asks for the same paths and packages as the fast search, for no particular ordinals or labels. */
  ghost predicate SameQuestion(scan: Query, q: Literal) {
    && scan.ordinals.None? && scan.labels.None?
    && scan.packagePattern == q.packagePattern && scan.hash == q.hash
    && (forall path :: scan.exactPath(path) <==> q.FindsPath(path))
    && (forall e: FileTreeEntry :: scan.exactPath(e.path) ==> scan.lineMatches(LineOf(e)))
  }

  /** For a plain literal the two ask the same: the regex is the literal. */
  lemma LiteralAsksTheSame(scan: Query, q: Literal)
    requires scan.ordinals.None? && scan.labels.None? && scan.packagePattern == q.packagePattern && scan.hash == q.hash
    requires !q.HasSuffix() && forall s :: scan.exactPath(s) <==> Contains(s, q.pattern)
    requires forall line :: scan.lineMatches(line) <==> Contains(line, q.pattern)
    ensures SameQuestion(scan, q)
  {
    forall e: FileTreeEntry | scan.exactPath(e.path) ensures scan.lineMatches(LineOf(e)) {
      ContainsBehind(EncodeMeta(e.node) + [NUL], e.path, q.pattern);
    }
  }

  lemma ContainsBehind(head: Bytes, s: Bytes, needle: Bytes)
    requires Contains(s, needle)
    ensures Contains(head + s, needle)
  {
    var i :| 0 <= i <= |s| && OccursAt(s, needle, i);
    assert (head + s)[|head| + i..|head| + i + |needle|] == s[i..i + |needle|];
    assert OccursAt(head + s, needle, |head| + i);
  }

  /** For a regex every match of which contains both literals they ask the same too. */
  lemma RegexAsksTheSame(scan: Query, q: Literal)
    requires scan.ordinals.None? && scan.labels.None? && scan.packagePattern == q.packagePattern && scan.hash == q.hash
    requires q.HasSuffix() && forall s :: scan.exactPath(s) <==> q.matches(s)
    requires forall s :: q.matches(s) ==> Contains(s, q.pattern) && Contains(s, q.suffix.value)
    requires forall e: FileTreeEntry :: scan.exactPath(e.path) ==> scan.lineMatches(LineOf(e))
    ensures SameQuestion(scan, q)
  {
  }

  /**
   * In particular for a regex that is safe from both ends, when the search uses the literals that
   * are taken from its two ends.
   */
  lemma SafeRegexAsksTheSame(scan: Query, q: Literal, ast: Ast)
    requires scan.ordinals.None? && scan.labels.None? && scan.packagePattern == q.packagePattern && scan.hash == q.hash
    requires PrefixSafe(ast) && SuffixSafe(ast) && forall s :: q.matches(s) <==> Found(ast, s)
    requires Prefix(ast) == Some(q.pattern) && Suffix(ast) == q.suffix && q.HasSuffix()
    requires forall s :: scan.exactPath(s) <==> q.matches(s)
    requires forall e: FileTreeEntry :: scan.exactPath(e.path) ==> scan.lineMatches(LineOf(e))
    ensures SameQuestion(scan, q)
  {
    hide Prefix, Suffix, PrefixSafe, SuffixSafe, Found, Contains;
    forall s | q.matches(s) ensures Contains(s, q.pattern) && Contains(s, q.suffix.value) {
      FoundContains(ast, s);
    }
    RegexAsksTheSame(scan, q);
  }

  // ---------- a full scan is a filter of the log ----------

  /** The scan asks for no particular ordinals and never for the empty path, and its two patterns fit together. */
  ghost predicate Straight(scan: Query) {
    && scan.ordinals.None? && !scan.exactPath([])
    && forall e: FileTreeEntry :: scan.exactPath(e.path) ==> scan.lineMatches(LineOf(e))
  }

  /** What the scan reports and shows of the log. */
  predicate Reports(scan: Query, o: Options, hit: Hit) {
    scan.exactPath(hit.1.path) && scan.Accepts(hit.0, 0) && ShouldInclude(o, hit)
  }

  /** Of the entries of a package both keep the same ones; an empty path is never asked for. */
  lemma {:induction false} SameEntries(scan: Query, o: Options, store: StorePath, entries: seq<FileTreeEntry>)
    requires Straight(scan) && scan.Accepts(store, 0)
    ensures Passing(Attach(store, WantedOf(scan, entries)), h => ShouldInclude(o, h))
         == Passing(Attach(store, WithPath(entries)), h => Reports(scan, o, h))
  {
    hide ShouldInclude;
    var scanned, logged := (h: Hit) => ShouldInclude(o, h), (h: Hit) => Reports(scan, o, h);
    if entries == [] {
      assert Attach(store, []) == [];
    } else {
      var n := |entries| - 1;
      var e := entries[n];
      SameEntries(scan, o, store, entries[..n]);
      var wanted := if Wanted(scan, e) then [e] else [];
      var kept := if e.path != [] then [e] else [];
      AttachConcat(store, WantedOf(scan, entries[..n]), wanted);
      AttachConcat(store, WithPath(entries[..n]), kept);
      PassingConcat(Attach(store, WantedOf(scan, entries[..n])), Attach(store, wanted), scanned);
      PassingConcat(Attach(store, WithPath(entries[..n])), Attach(store, kept), logged);
      PassingOne(Attach(store, wanted), scanned);
      PassingOne(Attach(store, kept), logged);
    }
  }

  lemma AttachConcat(store: StorePath, a: seq<FileTreeEntry>, b: seq<FileTreeEntry>)
    ensures Attach(store, a + b) == Attach(store, a) + Attach(store, b)
  {
  }

  lemma {:induction false} NoneReported(scan: Query, o: Options, store: StorePath, entries: seq<FileTreeEntry>)
    requires !scan.Accepts(store, 0)
    ensures Passing(Attach(store, entries), h => Reports(scan, o, h)) == []
    decreases |entries|
  {
    if entries != [] {
      var n := |entries| - 1;
      NoneReported(scan, o, store, entries[..n]);
      assert Attach(store, entries)[..n] == Attach(store, entries[..n]);
    }
  }

  /** One package: what the scan reports and shows is what it reports of the log. */
  lemma SamePackage(scan: Query, o: Options, p: Stored, ordinal: nat)
    requires Straight(scan)
    ensures Passing(Reported(scan, p.store, ordinal, WantedOf(scan, p.entries)), h => ShouldInclude(o, h))
         == Passing(Attach(p.store, WithPath(p.entries)), h => Reports(scan, o, h))
  {
    assert scan.Accepts(p.store, ordinal) <==> scan.Accepts(p.store, 0);
    if scan.Accepts(p.store, 0) {
      SameEntries(scan, o, p.store, p.entries);
    } else {
      NoneReported(scan, o, p.store, WithPath(p.entries));
    }
  }

  /** The whole database: the shown hits of the full scan are the reported entries of the log, in the same order. */
  lemma {:induction false} ScanIsLog(scan: Query, o: Options, ps: seq<Stored>)
    requires Straight(scan)
    ensures Passing(Hits(scan, ps, 0), h => ShouldInclude(o, h)) == Passing(LogOf(ps), h => Reports(scan, o, h))
    decreases |ps|
  {
    hide Straight, ShouldInclude, Passing, Reported, Reports;
    var scanned, logged := (h: Hit) => ShouldInclude(o, h), (h: Hit) => Reports(scan, o, h);
    if ps == [] {
      NoHitsPass(scanned);
      NoHitsPass(logged);
    } else {
      var n := |ps| - 1;
      ScanIsLog(scan, o, ps[..n]);
      assert ps == ps[..n] + [ps[n]];
      HitsConcat(scan, ps[..n], [ps[n]], 0);
      HitsOne(scan, ps[n], n);
      SamePackage(scan, o, ps[n], n);
      PassingConcat(Hits(scan, ps[..n], 0), Hits(scan, [ps[n]], n), scanned);
      PassingConcat(LogOf(ps[..n]), Attach(ps[n].store, WithPath(ps[n].entries)), logged);
    }
  }

  /** When both ask the same, the shown hits of the full scan are what the fast search looks for in the log. */
  lemma ScanAgrees(scan: Query, q: Literal, ps: seq<Stored>)
    requires SameQuestion(scan, q) && q.pattern != []
    ensures Passing(Hits(scan, ps, 0), h => ShouldInclude(q.options, h)) == Passing(LogOf(ps), h => q.Finds(h))
  {
    var reported, found := (h: Hit) => Reports(scan, q.options, h), (h: Hit) => q.Finds(h);
    EmptyPath(q);
    assert scan.exactPath([]) <==> q.FindsPath([]);
    ScanIsLog(scan, q.options, ps);
    forall h: Hit ensures reported(h) == found(h) {
      hide ShouldInclude, Contains;
      assert scan.exactPath(h.1.path) <==> q.FindsPath(h.1.path);
    }
    PassingAlike(LogOf(ps), reported, found);
  }

  lemma EmptyPath(q: Literal)
    requires q.pattern != []
    ensures !q.FindsPath([])
  {
  }

  lemma NoHitsPass(keep: Hit -> bool)
    ensures Passing([], keep) == []
  {
  }

  lemma HitsOne(q: Query, p: Stored, ordinal: nat)
    ensures Hits(q, [p], ordinal) == Reported(q, p.store, ordinal, WantedOf(q, p.entries))
  {
    assert [p][1..] == [];
    assert Hits(q, [p], ordinal) == Reported(q, p.store, ordinal, WantedOf(q, p.entries)) + [];
  }

  // ---------- building the sidecars ----------

  lemma NothingLogged(ps: seq<Stored>)
    ensures LogOf(ps[..0]) == []
  {
  }

  lemma LogNext(ps: seq<Stored>, n: nat)
    requires n < |ps|
    ensures LogOf(ps[..n + 1]) == LogOf(ps[..n]) + Attach(ps[n].store, WithPath(ps[n].entries))
  {
    hide WithPath;
    assert ps[..n + 1][..n] == ps[..n];
  }

  /** Record every package with the path table builder. */
  method RecordAll(ps: seq<Stored>, builder: PathEntryBuilder) returns (ok: bool)
    requires builder.Valid() && builder.log == [] && builder.stores == []
    modifies builder
    ensures builder.Valid() && (ok ==> builder.log == LogOf(ps))
    ensures |ps| <= U32_LIMIT ==> ok
  {
    hide AllFaithful, LogOf, WithPath;
    NothingLogged(ps);
    for n := 0 to |ps|
      invariant builder.Valid() && builder.log == LogOf(ps[..n]) && |builder.stores| <= n
    {
      LogNext(ps, n);
      var recorded := builder.RecordPackage(ps[n].store, ps[n].entries);
      if recorded.Err? {
        return false;
      }
    }
    assert ps[..|ps|] == ps;
    return true;
  }

  lemma {:induction false} LoggedEntry(ps: seq<Stored>, h: Hit)
    requires h in LogOf(ps)
    ensures exists p :: p in ps && h.1 in p.entries
    decreases |ps|
  {
    var n := |ps| - 1;
    if h in LogOf(ps[..n]) {
      LoggedEntry(ps[..n], h);
    } else {
      assert h in Attach(ps[n].store, WithPath(ps[n].entries));
      WithPathSome(ps[n].entries, h.1);
      assert ps[n] in ps;
    }
  }

  lemma {:induction false} WithPathSome(entries: seq<FileTreeEntry>, e: FileTreeEntry)
    requires e in WithPath(entries)
    ensures e in entries
  {
    var n := |entries| - 1;
    if e in WithPath(entries[..n]) {
      WithPathSome(entries[..n], e);
    }
  }

  /** Logged paths are paths of entries. */
  lemma CleanPaths(ps: seq<Stored>)
    requires forall p, e | p in ps && e in p.entries :: NUL !in e.path
    ensures forall k | k in LoggedPaths(LogOf(ps)) :: NUL !in k
  {
    hide LogOf;
    forall h | h in LogOf(ps) ensures NUL !in h.1.path {
      LoggedEntry(ps, h);
    }
  }

  /** Some size or offset does not fit, the store paths being numbered in one way or another. */
  ghost predicate SomethingTooLarge(codec: Codec, log: seq<Hit>) {
    exists stores, paths :: AllFaithful(stores, paths, log) && !AllFit(codec, paths, log)
  }

  /** Record every package, write the path table, and index the sorted paths under their ids. */
  method BuildSidecars(ps: seq<Stored>, codec: Codec) returns (r: Result<(Index, Table), PostingError>)
    requires Lossless(codec) && forall p, e | p in ps && e in p.entries :: NUL !in e.path
    ensures r.Ok? ==> Consistent(r.value.0, r.value.1, codec, LogOf(ps))
    ensures r.Err? ==> |ps| > U32_LIMIT || |PathList(LogOf(ps))| >= U32_LIMIT || SomethingTooLarge(codec, LogOf(ps))
  {
    var builder := new PathEntryBuilder();
    var recorded := RecordAll(ps, builder);
    if !recorded {
      return Err(TooManyIds);
    }
    ghost var log := LogOf(ps);
    CleanPaths(ps);
    RecordedPaths(builder.stores, builder.paths, log);
    hide LogOf, AllFaithful, LoggedPaths, AllFit, Tabled, Sorted, StandsFor, Indexes;
    var sorted := SortKeys(builder.paths.Keys);
    OneOrder(sorted, PathList(log), LoggedPaths(log));
    if |sorted| >= U32_LIMIT {
      return Err(TooManyIds);
    }
    var pathBuilder := IndexPaths(sorted);
    ListsFit(pathBuilder.trigrams, sorted);
    var index := pathBuilder.WriteSidecars();
    assert IndexOver(index.value, sorted);
    var written := WriteSidecars(builder, codec);
    if written.Err? {
      assert AllFaithful(builder.stores, builder.paths, log) && !AllFit(codec, builder.paths, log);
      return Err(TooManyIds);
    }
    return Ok((index.value, written.value));
  }

  /**
   * The two searches agree: whenever the fast search over the generated sidecars answers, its hits
   * are, as a multiset, the shown hits of the full scan over the packages of the database.
   */
  method FastSearch(index: Option<Index>, table: Option<Table>, q: Literal, codec: Codec, ghost ps: seq<Stored>, ghost scan: Query)
    returns (r: Result<Option<seq<Hit>>, TableError>)
    requires Lossless(codec) && q.pattern != [] && (|q.pattern| < 3 ==> q.suffix.None?)
    requires index.Some? ==> IndexOver(index.value, PathList(LogOf(ps)))
    requires table.Some? ==> Tabled(table.value, codec, LogOf(ps))
    requires SameQuestion(scan, q)
    ensures r.Ok? && (index.None? || table.None? ==> r.value.None?)
    ensures r.value.Some? ==> multiset(r.value.value) == multiset(Passing(Hits(scan, ps, 0), h => ShouldInclude(q.options, h)))
  {
    hide IndexOver, Tabled, SameQuestion, Hits, LogOf, Passing, ShouldInclude, PathList, Lossless;
    ghost var all;
    r, all := SearchPathTrigram(index, table, q, codec, None, LogOf(ps));
    assert r.value.Some? ==> r.value.value == all;
    ScanAgrees(scan, q, ps);
  }
}
