/**
 * The search plan: the indexes narrow the packages to look at, a fast search is taken where one
 * applies, and a scan of the remaining packages otherwise. The results are those of a full scan.
 */
module SearchPlan {
  import opened Wrappers
  import opened Bytes
  import opened Files
  import opened StorePaths
  import opened SearchSpec
  import opened FrameSearch
  import opened PackageSearch
  import opened FrameWriter
  import opened Postings
  import opened PathIndex
  import opened BasenameIndex
  import opened PathTable
  import opened PathTableLookup
  import opened LiteralSearch
  import opened FastEqualsScan
  import opened Blobs
  import opened EntryIndex
  import opened ResultOrder
  import NgramCache
  import Ngrams
  import Trigrams
  import D = Database
  import R = RegexLiteral

  // ---------- plans ----------

  /** What is known of the paths that a query matches. */
  datatype Plan = Plan(exactBasename: Option<Bytes>, exactPath: Option<Bytes>, pathPrefix: Option<Bytes>,
                       literal: Option<Bytes>, regexPrefix: Option<Bytes>, regexSuffix: Option<Bytes>)
  {
    /** Literals of a regex are only taken when the query is not a literal itself, and when they are long enough. */
    predicate Valid() {
      && (literal.Some? ==> literal.value != [] && regexPrefix.None? && regexSuffix.None?)
      && (regexPrefix.Some? ==> |regexPrefix.value| >= 3) && (regexSuffix.Some? ==> |regexSuffix.value| >= 3)
    }

    predicate ContainsGiven(path: Bytes, part: Option<Bytes>) {
      part.Some? ==> Contains(path, part.value)
    }

    /** The path is as the plan says. */
    predicate Admits(path: Bytes) {
      && (exactBasename.Some? ==> exactBasename.value != [] && BasenameOf(path) == exactBasename.value)
      && (exactPath.Some? ==> path != [] && path == exactPath.value)
      && (exactPath.None? && pathPrefix.Some? ==> path != [] && StartsWith(path, pathPrefix.value))
      && ContainsGiven(path, literal) && ContainsGiven(path, regexPrefix) && ContainsGiven(path, regexSuffix)
    }

    /** The search by name is tried: the name is known, and neither the path nor a prefix of it is. */
    predicate TriesName() {
      exactBasename.Some? && exactPath.None? && pathPrefix.None?
    }

    /** The trigram search is tried: some literal is known, and no index of names or paths applies. */
    predicate TriesTrigrams() {
      && (literal.Some? || regexPrefix.Some? || regexSuffix.Some?)
      && exactBasename.None? && exactPath.None? && pathPrefix.None?
    }

    /** The literal to search for, and the one that narrows it. */
    function Fast(q: Query, o: Options): Literal
      requires literal.Some? || regexPrefix.Some? || regexSuffix.Some?
    {
      var pattern := if literal.Some? then literal.value else if regexPrefix.Some? then regexPrefix.value else regexSuffix.value;
      Literal(pattern, if literal.None? then regexSuffix else None, q.exactPath, q.packagePattern, q.hash, o)
    }
  }

  /** The paths of every package. */
  function PathsOf(ps: seq<Stored>): (packages: seq<seq<Bytes>>)
    ensures |packages| == |ps|
  {
    seq(|ps|, i requires 0 <= i < |ps| => EntryPaths(ps[i].entries))
  }

  function EntryPaths(entries: seq<FileTreeEntry>): seq<Bytes> {
    seq(|entries|, i requires 0 <= i < |entries| => entries[i].path)
  }

  /** Every path that the query matches in this database is as the plan says. */
  ghost predicate Fits(plan: Plan, q: Query, ps: seq<Stored>) {
    forall i, path | 0 <= i < |ps| && path in PathsOf(ps)[i] && q.exactPath(path) :: plan.Admits(path)
  }

  /** Some path of the package is as the plan says. */
  ghost predicate MayMatch(plan: Plan, paths: seq<Bytes>) {
    exists path :: path in paths && plan.Admits(path)
  }

  /** No package that may match is missing from these ordinals. */
  ghost predicate Complete(ordinals: set<nat>, plan: Plan, packages: seq<seq<Bytes>>) {
    forall i | 0 <= i < |packages| && MayMatch(plan, packages[i]) :: i in ordinals
  }

  // ---------- sidecars ----------

  datatype Sidecars = Sidecars(basenames: Option<Index>, paths: Option<Index>, pathTrigrams: Option<Index>,
                               table: Option<PathTableFile.Table>, codec: Codec,
                               entries: Option<EntryTable>, entryCodec: EntryCodec)

  /** The sidecars that are there were generated from these packages. */
  ghost predicate Generated(s: Sidecars, ps: seq<Stored>) {
    && (s.basenames.Some? ==> BasenamesOver(s.basenames.value, PathsOf(ps)))
    && (s.paths.Some? ==> PathsOver(s.paths.value, PathsOf(ps)))
    && (s.pathTrigrams.Some? ==> IndexOver(s.pathTrigrams.value, PathList(LogOf(ps))))
    && (s.table.Some? ==> Tabled(s.table.value, s.codec, LogOf(ps)))
    && (s.entries.Some? ==> EntriesOver(s.entries.value, s.entryCodec, LogOf(ps)))
    && Lossless(s.codec)
  }

  datatype GenerateError =
    | BasenamesFailed(BasenameError) | EntriesFailed(PostingError) | NamesFailed(EntryError)

  /** The records of some name are too many for a blob, the store paths being numbered in one way or another. */
  ghost predicate NameTooLarge(codec: EntryCodec, ps: seq<Stored>) {
    exists stores, names, k :: |stores| <= |ps| && NamesFaithful(stores, names, LogOf(ps)) && TooManyUnder(codec, names, k)
  }

  predicate TooManyUnder(codec: EntryCodec, names: map<Bytes, seq<EntryRecord>>, k: Bytes) {
    k in names && |codec.serialize(names[k])| > MAX_SERIALIZED_BYTES
  }

  /** Record every package with the builder of the entry index, and write it. */
  method GenerateEntries(ps: seq<Stored>, codec: EntryCodec) returns (r: Result<EntryTable, EntryError>)
    requires Exact(codec)
    ensures r.Ok? ==> EntriesOver(r.value, codec, LogOf(ps))
    ensures r.Err? ==> |ps| > U32_LIMIT || NameTooLarge(codec, ps)
  {
    hide NamesFaithful, EntriesOver, Exact, TooManyUnder, LogOf;
    var builder := new EntryIndexBuilder();
    NothingLogged(ps);
    for n := 0 to |ps|
      invariant fresh(builder) && builder.Valid() && builder.log == LogOf(ps[..n]) && |builder.stores| <= n
    {
      LogNext(ps, n);
      var recorded := builder.RecordPackage(ps[n].store, ps[n].entries);
      if recorded.Err? {
        return Err(recorded.error);
      }
    }
    assert ps[..|ps|] == ps;
    r := builder.WriteSidecars(codec);
    if r.Err? {
      SomeTooLarge(codec, builder.names);
    }
  }

  lemma SomeTooLarge(codec: EntryCodec, names: map<Bytes, seq<EntryRecord>>)
    requires !forall k | k in names :: |codec.serialize(names[k])| <= MAX_SERIALIZED_BYTES
    ensures exists k :: TooManyUnder(codec, names, k)
  {
    var k :| k in names && |codec.serialize(names[k])| > MAX_SERIALIZED_BYTES;
    assert TooManyUnder(codec, names, k);
  }

  /** Some label, id or blob does not fit its file. */
  ghost predicate SidecarTooLarge(ps: seq<Stored>, labels: seq<Bytes>, codec: Codec, entryCodec: EntryCodec) {
    || !Printable(labels) || |PathList(LogOf(ps))| >= U32_LIMIT
    || SomethingTooLarge(codec, LogOf(ps)) || NameTooLarge(entryCodec, ps)
  }

  /** Generate all of them from the packages of a database; that only fails for a size that does not fit. */
  method GenerateSidecars(ps: seq<Stored>, labels: seq<Bytes>, codec: Codec, entryCodec: EntryCodec)
    returns (r: Result<Sidecars, GenerateError>)
    requires Lossless(codec) && Exact(entryCodec) && |labels| == |ps| <= 0xFFFF_FFFF
    requires forall p, e | p in ps && e in p.entries :: NUL !in e.path
    ensures r.Ok? ==> Generated(r.value, ps) && r.value.basenames.Some? && r.value.paths.Some?
                      && r.value.pathTrigrams.Some? && r.value.table.Some? && r.value.entries.Some?
    ensures r.Err? ==> SidecarTooLarge(ps, labels, codec, entryCodec)
    ensures !Printable(labels) ==> r.Err?
  {
    var packages := PathsOf(ps);
    hide BasenamesOver, IndexesBasenames, IndexesPaths, Tabled, IndexOver, LogOf, PathList, StandsFor, NamesFile, Lossless, SomethingTooLarge,
         EntriesOver, Exact, Printable, NameTooLarge;
    var names := BasenameIndex.RecordPackages(labels, packages);
    ListsShort(names.value.basenames, packages);
    var basenames := names.value.WriteSidecars();
    if basenames.Err? {
      return Err(BasenamesFailed(basenames.error));
    }
    var pathBuilder := PathIndex.RecordPackages(packages);
    PathsShort(pathBuilder.paths, packages);
    var paths := pathBuilder.WriteSidecars();
    assert PathsOver(paths.value, packages);
    var entries := BuildSidecars(ps, codec);
    if entries.Err? {
      return Err(EntriesFailed(entries.error));
    }
    var named := GenerateEntries(ps, entryCodec);
    if named.Err? {
      return Err(NamesFailed(named.error));
    }
    return Ok(Sidecars(Some(basenames.value.0), Some(paths.value), Some(entries.value.0), Some(entries.value.1), codec,
                       Some(named.value), entryCodec));
  }

  /** Whenever the package trigrams answer for a pattern, every package with a path that contains it is in the answer. */
  ghost predicate Knows(resolve: Bytes -> Option<set<nat>>, packages: seq<seq<Bytes>>) {
    forall pattern: Bytes, i, path | |pattern| >= 3 && resolve(pattern).Some? && 0 <= i < |packages| && path in packages[i]
                                     && Contains(path, pattern) :: i in resolve(pattern).value
  }

  /** That is so when the answers are those of an index of the packages; and if no path holds a NUL, a pattern with one has none. */
  lemma NgramsKnow(resolve: Bytes -> Option<set<nat>>, table: map<Bytes, set<U32>>, packages: seq<seq<Bytes>>)
    requires Ngrams.IndexesPackages(table, packages) && |packages| <= U32_LIMIT
    requires forall pattern: Bytes | |pattern| >= 3 :: resolve(pattern).Some? && AreCandidates(resolve(pattern).value, table, pattern)
    requires forall i, path | 0 <= i < |packages| && path in packages[i] :: NUL !in path
    ensures Knows(resolve, packages) && NgramCache.NothingForNul(resolve)
  {
    hide Contains, Ngrams.IndexesPackages;
    forall pattern: Bytes, i, path | |pattern| >= 3 && resolve(pattern).Some? && 0 <= i < |packages| && path in packages[i]
                                     && Contains(path, pattern)
      ensures i in resolve(pattern).value
    {
      var id: U32 := i;
      Ngrams.PackageIsCandidate(table, packages, pattern, id, path);
    }
    forall pattern: Bytes | |pattern| >= 3 && NUL in pattern ensures resolve(pattern) == Some({}) {
      NulHasNone(table, packages, pattern);
      assert resolve(pattern).value == {};
    }
  }

  /** The ordinals recorded under every window of the pattern. */
  ghost predicate AreCandidates(ordinals: set<nat>, table: map<Bytes, set<U32>>, pattern: Bytes) {
    && (forall i | i in ordinals :: i < U32_LIMIT)
    && forall id: U32 :: id in ordinals <==> Trigrams.InAllWindows(table, pattern, id)
  }

  lemma NulHasNone(table: map<Bytes, set<U32>>, packages: seq<seq<Bytes>>, pattern: Bytes)
    requires Ngrams.IndexesPackages(table, packages) && |pattern| >= 3 && NUL in pattern
    requires forall i, path | 0 <= i < |packages| && path in packages[i] :: NUL !in path
    ensures forall id: U32 :: !Trigrams.InAllWindows(table, pattern, id)
  {
    var at :| 0 <= at < |pattern| && pattern[at] == NUL;
    var i := if at + 3 <= |pattern| then at else |pattern| - 3;
    var window := Trigrams.Window(pattern, i);
    assert window[at - i] == NUL;
    forall id: U32 ensures !Has(table, window, id) {
      if Has(table, window, id) {
        var path :| path in packages[id] && Trigrams.HasWindow(path, window);
        NoNulWindow(path, window);
      }
    }
  }

  lemma NoNulWindow(path: Bytes, window: Bytes)
    requires NUL !in path && NUL in window
    ensures !Trigrams.HasWindow(path, window)
  {
  }

  // ---------- candidates ----------

  /** `resolve_package_ordinals`: the packages with the exact basename, when the index answers. */
  method ResolveBasename(index: Option<Index>, base: Option<Bytes>, ghost packages: seq<seq<Bytes>>)
    returns (r: Option<set<nat>>)
    requires (index.Some? ==> BasenamesOver(index.value, packages)) && |packages| <= U32_LIMIT
    ensures r.Some? <==> base.Some? && index.Some? && |OrdinalsOf(packages, base.value)| <= MAX_ORDINALS_PER_BASENAME
    ensures r.Some? ==> forall i :: i in r.value <==> 0 <= i < |packages| && HasBasename(packages[i], base.value)
  {
    hide BasenamesOver, HasBasename, OrdinalsOf;
    if base.None? || index.None? {
      return None;
    }
    var ids := LookupOrdinals(index.value, base.value, packages);
    if ids.Err? {
      return None;
    }
    OrdinalsAre(packages, base.value);
    return Some(set id | id in ids.value);
  }

  /** `resolve_path_ordinals`: the packages with the exact path, or else with the prefix, when the index answers. */
  method ResolvePath(index: Option<Index>, exact: Option<Bytes>, prefix: Option<Bytes>, ghost packages: seq<seq<Bytes>>)
    returns (r: Option<set<nat>>)
    requires (index.Some? ==> PathsOver(index.value, packages)) && |packages| <= U32_LIMIT
    ensures r.Some? ==> index.Some? && (exact.Some? || prefix.Some?)
    ensures r.Some? ==> forall i | 0 <= i < |packages| ::
              i in r.value <==> if exact.Some? then exact.value != [] && exact.value in packages[i]
                                else HasPrefix(packages[i], prefix.value)
  {
    hide PathsOver, HasPrefix;
    if index.None? {
      return None;
    }
    if exact.None? {
      if prefix.None? {
        return None;
      }
      r := ResolvePrefix(index.value, prefix.value, packages);
    } else {
      r := ResolveExact(index.value, exact.value, packages);
    }
  }

  method ResolveExact(index: Index, path: Bytes, ghost packages: seq<seq<Bytes>>) returns (r: Option<set<nat>>)
    requires PathsOver(index, packages) && |packages| <= U32_LIMIT
    ensures r.Some? ==> forall i | 0 <= i < |packages| :: i in r.value <==> path != [] && path in packages[i]
  {
    hide StandsFor, Has, Ascending;
    ghost var table :| StandsFor(index, table) && IndexesPaths(table, packages);
    var ids := LookupPath(index, path, table);
    if ids.Err? {
      return None;
    }
    forall i: nat | i < |packages| ensures i in ids.value <==> path != [] && path in packages[i] {
      var id: U32 := i;
      assert id in ids.value <==> Has(table, path, id);
    }
    return Some(set id | id in ids.value);
  }

  method ResolvePrefix(index: Index, prefix: Bytes, ghost packages: seq<seq<Bytes>>) returns (r: Option<set<nat>>)
    requires PathsOver(index, packages) && |packages| <= U32_LIMIT
    ensures r.Some? ==> forall i | 0 <= i < |packages| :: i in r.value <==> HasPrefix(packages[i], prefix)
  {
    hide StandsFor, HasPrefix, Under, IndexesPaths, Capped, Ascending, StartsWith, Has;
    ghost var table :| StandsFor(index, table) && IndexesPaths(table, packages);
    PrefixHolders(index, table, packages, prefix);
    var ids := LookupPrefix(index, prefix, table);
    if ids.Err? {
      return None;
    }
    forall i: nat | i < |packages| ensures i in ids.value <==> HasPrefix(packages[i], prefix) {
      var id: U32 := i;
      assert id in ids.value <==> Under(table, index.keys, prefix, id);
    }
    return Some(set id | id in ids.value);
  }

  lemma {:induction false} OrdinalsAre(packages: seq<seq<Bytes>>, base: Bytes)
    ensures forall i :: i in OrdinalsOf(packages, base) <==> 0 <= i < |packages| && HasBasename(packages[i], base)
  {
    hide HasBasename;
    if packages != [] {
      OrdinalsAre(packages[..|packages| - 1], base);
    }
  }

  /** Some path of the package starts with the prefix. */
  ghost predicate HasPrefix(paths: seq<Bytes>, prefix: Bytes) {
    exists path :: path in paths && path != [] && StartsWith(path, prefix)
  }

  lemma PrefixHolders(index: Index, table: map<Bytes, set<U32>>, packages: seq<seq<Bytes>>, prefix: Bytes)
    requires StandsFor(index, table) && IndexesPaths(table, packages)
    ensures forall id: U32 :: Under(table, index.keys, prefix, id) <==> id < |packages| && HasPrefix(packages[id], prefix)
  {
    forall id: U32 ensures Under(table, index.keys, prefix, id) <==> id < |packages| && HasPrefix(packages[id], prefix) {
      UnderTable(index, table, prefix, id);
      hide StandsFor, Under, StartsWith, Has;
      if id < |packages| && HasPrefix(packages[id], prefix) {
        var path :| path in packages[id] && path != [] && StartsWith(path, prefix);
        assert Has(table, path, id);
      }
      if k :| StartsWith(k, prefix) && Has(table, k, id) {
        assert k != [] && id < |packages| && k in packages[id];
      }
    }
  }

  function Union(a: Option<set<nat>>, b: Option<set<nat>>): Option<set<nat>> {
    if a.None? then b else if b.None? then a else Some(a.value + b.value)
  }

  function Both(a: Option<set<nat>>, b: Option<set<nat>>): Option<set<nat>> {
    if a.None? then b else if b.None? then a else Some(a.value * b.value)
  }

  /** The trigrams answer for a literal. */
  ghost predicate Known(part: Option<Bytes>, resolve: Bytes -> Option<set<nat>>) {
    part.Some? && |part.value| >= 3 && resolve(part.value).Some?
  }

  ghost predicate NameKnown(s: Sidecars, plan: Plan, packages: seq<seq<Bytes>>) {
    plan.exactBasename.Some? && s.basenames.Some? && |OrdinalsOf(packages, plan.exactBasename.value)| <= MAX_ORDINALS_PER_BASENAME
  }

  /** The package holds the exact path, or else some path with the prefix. */
  ghost predicate Placed(plan: Plan, paths: seq<Bytes>)
    requires plan.exactPath.Some? || plan.pathPrefix.Some?
  {
    if plan.exactPath.Some? then plan.exactPath.value != [] && plan.exactPath.value in paths
    else HasPrefix(paths, plan.pathPrefix.value)
  }

  /** A package is left: it has the name or the place, if one of them is known, and every literal that is known may be in it. */
  ghost predicate Left(i: nat, s: Sidecars, plan: Plan, resolve: Bytes -> Option<set<nat>>, packages: seq<seq<Bytes>>, placeKnown: bool)
    requires i < |packages| && (placeKnown ==> plan.exactPath.Some? || plan.pathPrefix.Some?)
  {
    && (NameKnown(s, plan, packages) || placeKnown ==>
          || (NameKnown(s, plan, packages) && HasBasename(packages[i], plan.exactBasename.value))
          || (placeKnown && Placed(plan, packages[i])))
    && (Known(plan.literal, resolve) ==> i in resolve(plan.literal.value).value)
    && (Known(plan.regexPrefix, resolve) ==> i in resolve(plan.regexPrefix.value).value)
    && (Known(plan.regexSuffix, resolve) ==> i in resolve(plan.regexSuffix.value).value)
  }

  /** These are the packages that are left, if anything is known. */
  ghost predicate AreLeft(r: Option<set<nat>>, s: Sidecars, plan: Plan, resolve: Bytes -> Option<set<nat>>, packages: seq<seq<Bytes>>,
                          placeKnown: bool)
  {
    && (placeKnown ==> s.paths.Some? && (plan.exactPath.Some? || plan.pathPrefix.Some?))
    && (r.Some? <==> NameKnown(s, plan, packages) || placeKnown
                     || Known(plan.literal, resolve) || Known(plan.regexPrefix, resolve) || Known(plan.regexSuffix, resolve))
    && (r.Some? ==> forall i | 0 <= i < |packages| :: i in r.value <==> Left(i, s, plan, resolve, packages, placeKnown))
  }

  lemma AnswerIs(plan: Plan, resolve: Bytes -> Option<set<nat>>)
    ensures var r := NgramCache.Answer(plan.literal, plan.regexPrefix, plan.regexSuffix, resolve);
            && (r.Some? <==> Known(plan.literal, resolve) || Known(plan.regexPrefix, resolve) || Known(plan.regexSuffix, resolve))
            && (r.Some? ==> forall i :: i in r.value <==>
                  && (Known(plan.literal, resolve) ==> i in resolve(plan.literal.value).value)
                  && (Known(plan.regexPrefix, resolve) ==> i in resolve(plan.regexPrefix.value).value)
                  && (Known(plan.regexSuffix, resolve) ==> i in resolve(plan.regexSuffix.value).value))
  {
  }

  lemma LeftOver(named: Option<set<nat>>, pathed: Option<set<nat>>, narrowed: Option<set<nat>>,
                 s: Sidecars, plan: Plan, resolve: Bytes -> Option<set<nat>>, packages: seq<seq<Bytes>>)
    requires named.Some? <==> NameKnown(s, plan, packages)
    requires named.Some? ==> forall i :: i in named.value <==> 0 <= i < |packages| && HasBasename(packages[i], plan.exactBasename.value)
    requires pathed.Some? ==> s.paths.Some? && (plan.exactPath.Some? || plan.pathPrefix.Some?)
    requires pathed.Some? ==> forall i | 0 <= i < |packages| :: i in pathed.value <==> Placed(plan, packages[i])
    requires narrowed == NgramCache.Answer(plan.literal, plan.regexPrefix, plan.regexSuffix, resolve)
    ensures AreLeft(Both(Union(named, pathed), narrowed), s, plan, resolve, packages, pathed.Some?)
  {
    AnswerIs(plan, resolve);
    hide NgramCache.Answer, Known, NameKnown, HasBasename, Placed;
  }

  /** The candidates by name or path, narrowed by the trigrams: no package that may match is lost. */
  method CandidatePackages(s: Sidecars, cache: NgramCache.Cache, resolve: Bytes -> Option<set<nat>>, plan: Plan,
                           ghost packages: seq<seq<Bytes>>)
    returns (r: Option<set<nat>>)
    requires plan.Valid() && |packages| <= U32_LIMIT && Knows(resolve, packages) && NgramCache.NothingForNul(resolve)
    requires s.basenames.Some? ==> BasenamesOver(s.basenames.value, packages)
    requires s.paths.Some? ==> PathsOver(s.paths.value, packages)
    requires cache.Valid() && NgramCache.Right(cache.entries, resolve)
    modifies cache
    ensures cache.Valid() && NgramCache.Right(cache.entries, resolve)
    ensures r.Some? ==> Complete(r.value, plan, packages)
    ensures exists placeKnown :: AreLeft(r, s, plan, resolve, packages, placeKnown)
  {
    hide Knows, BasenamesOver, PathsOver, NgramCache.Right, NgramCache.Answer, NgramCache.NothingForNul, OrdinalsOf, Complete, StartsWith,
         HasBasename, HasPrefix, AreLeft;
    var named := ResolveBasename(s.basenames, plan.exactBasename, packages);
    var pathed := ResolvePath(s.paths, plan.exactPath, plan.pathPrefix, packages);
    var narrowed := NgramCache.ResolveMulti(cache, plan.literal, plan.regexPrefix, plan.regexSuffix, resolve);
    NamedComplete(named, plan, packages);
    PathedComplete(pathed, plan, packages);
    AnswerComplete(plan, resolve, packages);
    Combined(named, pathed, narrowed, plan, packages);
    LeftOver(named, pathed, narrowed, s, plan, resolve, packages);
    r := Both(Union(named, pathed), narrowed);
  }

  lemma NamedComplete(named: Option<set<nat>>, plan: Plan, packages: seq<seq<Bytes>>)
    requires named.Some? ==> plan.exactBasename.Some?
    requires named.Some? ==> forall i :: i in named.value <==> 0 <= i < |packages| && HasBasename(packages[i], plan.exactBasename.value)
    ensures named.Some? ==> Complete(named.value, plan, packages)
  {
    hide BasenameOf, Contains, StartsWith;
  }

  lemma PathedComplete(pathed: Option<set<nat>>, plan: Plan, packages: seq<seq<Bytes>>)
    requires pathed.Some? ==> plan.exactPath.Some? || plan.pathPrefix.Some?
    requires pathed.Some? ==> forall i | 0 <= i < |packages| ::
               i in pathed.value <==> if plan.exactPath.Some? then plan.exactPath.value != [] && plan.exactPath.value in packages[i]
                                      else HasPrefix(packages[i], plan.pathPrefix.value)
    ensures pathed.Some? ==> Complete(pathed.value, plan, packages)
  {
    hide BasenameOf, Contains, StartsWith;
  }

  lemma Combined(named: Option<set<nat>>, pathed: Option<set<nat>>, narrowed: Option<set<nat>>, plan: Plan, packages: seq<seq<Bytes>>)
    requires named.Some? ==> Complete(named.value, plan, packages)
    requires pathed.Some? ==> Complete(pathed.value, plan, packages)
    requires narrowed.Some? ==> Complete(narrowed.value, plan, packages)
    ensures var r := Both(Union(named, pathed), narrowed); r.Some? ==> Complete(r.value, plan, packages)
  {
    hide MayMatch;
  }

  lemma NarrowKeeps(result: Option<set<nat>>, part: Option<Bytes>, resolve: Bytes -> Option<set<nat>>,
                    plan: Plan, packages: seq<seq<Bytes>>, i: nat, path: Bytes)
    requires Knows(resolve, packages) && i < |packages| && path in packages[i] && plan.ContainsGiven(path, part)
    requires result.Some? ==> i in result.value
    ensures var r := NgramCache.Narrow(result, part, resolve); r.Some? ==> i in r.value
  {
    hide Contains;
  }

  lemma AnswerComplete(plan: Plan, resolve: Bytes -> Option<set<nat>>, packages: seq<seq<Bytes>>)
    requires Knows(resolve, packages)
    ensures var r := NgramCache.Answer(plan.literal, plan.regexPrefix, plan.regexSuffix, resolve);
            r.Some? ==> Complete(r.value, plan, packages)
  {
    var first := NgramCache.Narrow(None, plan.literal, resolve);
    var second := NgramCache.Narrow(first, plan.regexPrefix, resolve);
    var r := NgramCache.Narrow(second, plan.regexSuffix, resolve);
    hide Knows, NgramCache.Narrow, Contains, BasenameOf, StartsWith;
    if r.Some? {
      forall i | 0 <= i < |packages| && MayMatch(plan, packages[i]) ensures i in r.value {
        var path :| path in packages[i] && plan.Admits(path);
        NarrowKeeps(None, plan.literal, resolve, plan, packages, i, path);
        NarrowKeeps(first, plan.regexPrefix, resolve, plan, packages, i, path);
        NarrowKeeps(second, plan.regexSuffix, resolve, plan, packages, i, path);
      }
    }
  }

  // ---------- pruning ----------

  /** Leaving out packages that have no wanted entry changes nothing. */
  lemma {:induction false} PrunedHits(q: Query, ordinals: set<nat>, ps: seq<Stored>, first: nat)
    requires q.ordinals.None?
    requires forall i | 0 <= i < |ps| && WantedOf(q, ps[i].entries) != [] :: first + i in ordinals
    ensures Hits(q.(ordinals := Some(ordinals)), ps, first) == Hits(q, ps, first)
  {
    hide WantedOf;
    if ps != [] {
      var asked := q.(ordinals := Some(ordinals));
      WantedAlike(q, asked, ps[0].entries);
      assert forall i | 0 <= i < |ps[1..]| :: ps[1..][i] == ps[i + 1];
      forall i | 0 <= i < |ps[1..]| && WantedOf(q, ps[1..][i].entries) != [] ensures first + 1 + i in ordinals {
        assert first + (i + 1) in ordinals;
      }
      PrunedHits(q, ordinals, ps[1..], first + 1);
      assert WantedOf(q, ps[0].entries) != [] ==> first + 0 in ordinals;
    }
  }

  lemma {:induction false} WantedSome(q: Query, entries: seq<FileTreeEntry>) returns (e: FileTreeEntry)
    requires WantedOf(q, entries) != []
    ensures e in entries && q.exactPath(e.path)
  {
    var n := |entries| - 1;
    if Wanted(q, entries[n]) {
      e := entries[n];
    } else {
      e := WantedSome(q, entries[..n]);
    }
  }

  /** Complete candidates lose no hit. */
  lemma CompleteLosesNothing(q: Query, plan: Plan, ordinals: set<nat>, ps: seq<Stored>)
    requires q.ordinals.None? && Fits(plan, q, ps) && Complete(ordinals, plan, PathsOf(ps))
    ensures Hits(q.(ordinals := Some(ordinals)), ps, 0) == Hits(q, ps, 0)
  {
    hide Hits;
    forall i | 0 <= i < |ps| && WantedOf(q, ps[i].entries) != [] ensures i in ordinals {
      var e := WantedSome(q, ps[i].entries);
      var k :| 0 <= k < |ps[i].entries| && ps[i].entries[k] == e;
      assert EntryPaths(ps[i].entries)[k] == e.path && e.path in PathsOf(ps)[i];
      assert MayMatch(plan, PathsOf(ps)[i]);
    }
    PrunedHits(q, ordinals, ps, 0);
  }

  // ---------- the search ----------

  /** How the results were found. */
  datatype Route = ByPath | ByBasename | ByTrigrams | ByScan

  /** The shown hits of a full scan. */
  function Shown(q: Query, o: Options, ps: seq<Stored>): seq<Hit> {
    Passing(Hits(q, ps, 0), h => ShouldInclude(o, h))
  }

  lemma {:induction false} AllPass(hits: seq<Hit>, keep: Hit -> bool)
    requires forall h | h in hits :: keep(h)
    ensures Passing(hits, keep) == hits
  {
    if hits != [] {
      var n := |hits| - 1;
      AllPass(hits[..n], keep);
      assert hits[n] in hits && hits == hits[..n] + [hits[n]];
    }
  }

  /** Hits that were filtered before pass the filter. */
  lemma FilteredBefore(hits: seq<Hit>, log: seq<Hit>, first: Hit -> bool, keep: Hit -> bool)
    requires multiset(hits) == multiset(Passing(log, first)) && forall h | first(h) :: keep(h)
    ensures forall h | h in hits :: keep(h)
  {
    PassingWithin(log, first);
    forall h | h in hits ensures keep(h) {
      assert h in multiset(hits);
      assert h in Passing(log, first);
    }
  }

  /** The hits of exactly one path are a filter of the log. */
  lemma {:induction false} PassingOnPath(log: seq<Hit>, path: Bytes, keep: Hit -> bool)
    ensures Passing(OnPath(log, path), keep) == Passing(log, (h: Hit) => h.1.path == path && keep(h))
  {
    var both := (h: Hit) => h.1.path == path && keep(h);
    if log != [] {
      var n := |log| - 1;
      var one := if log[n].1.path == path then [log[n]] else [];
      PassingOnPath(log[..n], path, keep);
      PassingConcat(OnPath(log[..n], path), one, keep);
      PassingOne(one, keep);
    }
  }

  /** A hit that the package filters let through and that is shown. */
  predicate Accepted(q: Query, o: Options, h: Hit) {
    q.Accepts(h.0, 0) && ShouldInclude(o, h)
  }

  /** The filters behind a lookup. */
  method ShowAccepted(found: seq<Hit>, q: Query, o: Options) returns (hits: seq<Hit>)
    requires q.ordinals.None? && q.labels.None?
    ensures hits == Passing(found, h => Accepted(q, o, h))
  {
    var filter := Literal([], None, q.exactPath, q.packagePattern, q.hash, o);
    hits := ShowHits(found, filter);
    PassingAlike(found, h => filter.Shows(h), h => Accepted(q, o, h));
  }

  /** The exact path in the path table, and the filters. */
  method SearchExactPath(t: PathTableFile.Table, path: Bytes, q: Query, o: Options, codec: Codec, ghost log: seq<Hit>)
    returns (hits: seq<Hit>)
    requires Tabled(t, codec, log) && Lossless(codec) && q.ordinals.None? && q.labels.None?
    ensures hits == Passing(log, (h: Hit) => h.1.path == path && Accepted(q, o, h))
  {
    var found := LookupEntries(t, path, codec, log);
    hits := ShowAccepted(found.value, q, o);
    ghost var accepted := (h: Hit) => Accepted(q, o, h);
    PassingOnPath(log, path, accepted);
    PassingAlike(log, (h: Hit) => h.1.path == path && accepted(h), (h: Hit) => h.1.path == path && Accepted(q, o, h));
  }

  lemma {:induction false} PassingBoth(hits: seq<Hit>, a: Hit -> bool, b: Hit -> bool)
    ensures Passing(Passing(hits, a), b) == Passing(hits, h => a(h) && b(h))
  {
    if hits != [] {
      var n := |hits| - 1;
      PassingBoth(hits[..n], a, b);
      var one := if a(hits[n]) then [hits[n]] else [];
      PassingConcat(Passing(hits[..n], a), one, b);
      PassingOne(one, b);
    }
  }

  /** `search_entry_index`: the exact name in the entry index, and the filters; the path is not looked at. */
  method SearchName(t: EntryTable, base: Bytes, q: Query, o: Options, codec: EntryCodec, ghost log: seq<Hit>)
    returns (r: Result<seq<Hit>, EntryError>)
    requires EntriesOver(t, codec, log) && q.ordinals.None? && q.labels.None? && base != []
    ensures r == Ok(Passing(log, (h: Hit) => BasenameOf(h.1.path) == base && Accepted(q, o, h)))
  {
    var found := LookupName(t, base, codec, log);
    hide EntriesOver, BasenameOf, Accepted;
    var hits := ShowAccepted(found.value, q, o);
    ghost var named, accepted := (h: Hit) => BasenameOf(h.1.path) == base, (h: Hit) => Accepted(q, o, h);
    PassingBoth(log, named, accepted);
    PassingAlike(log, h => named(h) && accepted(h), (h: Hit) => BasenameOf(h.1.path) == base && Accepted(q, o, h));
    return Ok(hits);
  }

  // ---------- what a search finds, said of packages, paths and options ----------

  /** Some package holds the entry, and its name and hash are as asked. */
  ghost predicate StoredAsAsked(q: Query, ps: seq<Stored>, h: Hit) {
    && (exists p :: p in ps && p.store == h.0 && h.1 in p.entries)
    && (q.packagePattern.Some? ==> q.packagePattern.value(h.0.name)) && (q.hash.Some? ==> h.0.hash == q.hash.value)
  }

  /** Neither a name nor a path nor a prefix is known. */
  ghost predicate NoPlace(plan: Plan) {
    plan.exactBasename.None? && plan.exactPath.None? && plan.pathPrefix.None?
  }

  ghost predicate SomeLiteral(plan: Plan) {
    plan.literal.Some? || plan.regexPrefix.Some? || plan.regexSuffix.Some?
  }

  /** The path holds the literal, or the literals of the regex, which is then matched again if they differ. */
  ghost predicate HoldsLiterals(plan: Plan, q: Query, path: Bytes)
    requires SomeLiteral(plan)
  {
    match plan.literal
    case Some(literal) => Contains(path, literal)
    case None =>
      match plan.regexPrefix
      case None => Contains(path, plan.regexSuffix.value)
      case Some(prefix) =>
        && Contains(path, prefix)
        && (plan.regexSuffix.Some? && plan.regexSuffix.value != prefix ==> Contains(path, plan.regexSuffix.value) && q.exactPath(path))
  }

  /** What a route finds, the options aside. */
  ghost predicate FoundBy(route: Route, plan: Plan, q: Query, ps: seq<Stored>, h: Hit)
    requires plan.Valid()
  {
    var path := h.1.path;
    && StoredAsAsked(q, ps, h)
    && match route
       case ByPath => path != [] && plan.exactPath == Some(path)
       case ByBasename => path != [] && plan.exactBasename == Some(BasenameOf(path))
       case ByTrigrams => path != [] && SomeLiteral(plan) && HoldsLiterals(plan, q, path)
       case ByScan => q.exactPath(path) && q.lineMatches(EncodeMeta(h.1.node) + [0] + path)
  }

  lemma {:induction false} PassingAre(hits: seq<Hit>, keep: Hit -> bool, h: Hit)
    ensures h in Passing(hits, keep) <==> h in hits && keep(h)
  {
    if hits != [] {
      var n := |hits| - 1;
      PassingAre(hits[..n], keep, h);
      assert hits == hits[..n] + [hits[n]];
    }
  }

  /** The log holds the entries with a path. */
  lemma {:induction false} LogAre(ps: seq<Stored>, h: Hit)
    ensures h in LogOf(ps) <==> h.1.path != [] && exists p :: p in ps && p.store == h.0 && h.1 in p.entries
    decreases |ps|
  {
    if ps != [] {
      var n := |ps| - 1;
      LogAre(ps[..n], h);
      AttachedAre(ps[n].store, ps[n].entries, h);
      assert ps == ps[..n] + [ps[n]];
    }
  }

  lemma AttachedAre(store: StorePath, entries: seq<FileTreeEntry>, h: Hit)
    ensures h in Attach(store, WithPath(entries)) <==> h.0 == store && h.1 in entries && h.1.path != []
  {
    WithPathAre(entries, h.1);
    var kept := WithPath(entries);
    if h.0 == store && h.1 in kept {
      var k :| 0 <= k < |kept| && kept[k] == h.1;
      assert Attach(store, kept)[k] == h;
    }
  }

  lemma {:induction false} WithPathAre(entries: seq<FileTreeEntry>, e: FileTreeEntry)
    ensures e in WithPath(entries) <==> e in entries && e.path != []
  {
    if entries != [] {
      var n := |entries| - 1;
      WithPathAre(entries[..n], e);
      assert entries == entries[..n] + [entries[n]];
    }
  }

  lemma ScanFinds(q: Query, ps: seq<Stored>, h: Hit)
    requires q.ordinals.None? && q.labels.None?
    ensures h in Hits(q, ps, 0) <==>
            StoredAsAsked(q, ps, h) && q.exactPath(h.1.path) && q.lineMatches(EncodeMeta(h.1.node) + [0] + h.1.path)
  {
    hide Hits;
    HitsAre(q, ps, 0, h);
    if p :| p in ps && p.store == h.0 && h.1 in p.entries && StoredAsAsked(q, ps, h) && q.exactPath(h.1.path)
            && q.lineMatches(EncodeMeta(h.1.node) + [0] + h.1.path) {
      var i :| 0 <= i < |ps| && ps[i] == p;
      assert IsHit(q, ps[i], 0 + i, h);
    }
    if i :| 0 <= i < |ps| && IsHit(q, ps[i], 0 + i, h) {
      assert ps[i] in ps;
    }
  }

  /** Every route finds exactly the hits of its kind that meet the options. */
  lemma AnsweredFinds(route: Route, all: seq<Hit>, plan: Plan, q: Query, o: Options, ps: seq<Stored>, h: Hit)
    requires plan.Valid() && Answered(route, all, plan, q, o, ps) && q.ordinals.None? && q.labels.None?
    ensures h in all <==> FoundBy(route, plan, q, ps, h) && MeetsOptions(o, h)
  {
    ShownMeets(o, h);
    LogAre(ps, h);
    hide LogOf, Hits, ShouldInclude, MeetsOptions, BasenameOf, Contains, Passing;
    match route
    case ByPath => PassingAre(LogOf(ps), (h: Hit) => h.1.path == plan.exactPath.value && Accepted(q, o, h), h);
    case ByBasename =>
      PassingAre(LogOf(ps), (h: Hit) => BasenameOf(h.1.path) == plan.exactBasename.value && Accepted(q, o, h), h);
    case ByTrigrams =>
      PassingAre(LogOf(ps), h => plan.Fast(q, o).Finds(h), h);
      assert h in all <==> h in multiset(all);
    case ByScan =>
      PassingAre(Hits(q, ps, 0), h => ShouldInclude(o, h), h);
      ScanFinds(q, ps, h);
  }

  /** What a route is to find. */
  ghost predicate Answered(route: Route, hits: seq<Hit>, plan: Plan, q: Query, o: Options, ps: seq<Stored>) {
    match route
    case ByPath => plan.exactPath.Some? && hits == Passing(LogOf(ps), (h: Hit) => h.1.path == plan.exactPath.value && Accepted(q, o, h))
    case ByBasename =>
      plan.TriesName() && hits == Passing(LogOf(ps), (h: Hit) => BasenameOf(h.1.path) == plan.exactBasename.value && Accepted(q, o, h))
    case ByTrigrams =>
      plan.TriesTrigrams() && multiset(hits) == multiset(Passing(LogOf(ps), h => plan.Fast(q, o).Finds(h)))
    case ByScan => hits == Shown(q, o, ps)
  }

  /** Which fast search is taken: the exact path, the exact name, or the trigrams when they are sure to answer. */
  ghost predicate Takes(route: Route, s: Sidecars, plan: Plan, ps: seq<Stored>)
    requires plan.Valid()
  {
    && (plan.exactPath.Some? && s.table.Some? ==> route.ByPath?)
    && (plan.exactBasename.Some? && plan.exactPath.None? && plan.pathPrefix.None? && s.entries.Some? ==> route.ByBasename?)
    && (NoPlace(plan) && SomeLiteral(plan) && s.pathTrigrams.Some? && s.table.Some? && FewPaths(plan, ps) ==> route.ByTrigrams?)
    && (route.ByPath? ==> plan.exactPath.Some? && s.table.Some?)
    && (route.ByBasename? ==> plan.exactBasename.Some? && plan.exactPath.None? && plan.pathPrefix.None? && s.entries.Some?)
    && (route.ByTrigrams? ==> NoPlace(plan) && SomeLiteral(plan) && s.pathTrigrams.Some? && s.table.Some?)
  }

  /** So few paths that the trigram search does not give up. */
  ghost predicate FewPaths(plan: Plan, ps: seq<Stored>) {
    |PathList(LogOf(ps))| <= CANDIDATE_LIMIT && |PathList(LogOf(ps))| <= Trigrams.MAX_IDS_PER_TRIGRAM
  }

  /** Then no trigram is in too many of them. */
  lemma FewMeansFew(plan: Plan, ps: seq<Stored>, pattern: Bytes)
    requires FewPaths(plan, ps)
    ensures FewHolders(PathList(LogOf(ps)), pattern)
  {
    hide Trigrams.HasWindow, Trigrams.Window, LogOf, PathList;
    var keys := PathList(LogOf(ps));
    forall i | 0 <= i && i + 3 <= |pattern| ensures |Holders(keys, Trigrams.Window(pattern, i))| <= Trigrams.MAX_IDS_PER_TRIGRAM {
      FewBelow(Holders(keys, Trigrams.Window(pattern, i)), |keys|);
    }
  }

  /** Stopping early is only safe when nothing re-orders the hits afterwards. */
  function EarlyLimit(sort: SearchSort, limit: Option<nat>): Option<nat> {
    if sort.Unsorted? then limit else None
  }

  /**
   * The fast searches in order of preference: the exact path in the path table, the exact name in the
   * entry index, the path trigrams. `all` is what is found without a limit.
   */
  method TryFast(s: Sidecars, plan: Plan, q: Query, o: Options, sort: SearchSort, limit: Option<nat>, ghost ps: seq<Stored>)
    returns (r: Option<seq<Hit>>, route: Route, ghost all: seq<Hit>)
    requires Generated(s, ps) && plan.Valid() && q.ordinals.None? && q.labels.None?
    requires plan.exactBasename.Some? ==> plan.exactBasename.value != []
    ensures r.Some? ==> Answered(route, all, plan, q, o, ps) && Cut(r.value, EarlyLimit(sort, limit)) == Cut(all, EarlyLimit(sort, limit))
    ensures r.Some? && EarlyLimit(sort, limit).None? ==> r.value == all
    ensures r.Some? ==> forall h | h in r.value :: h in all
    ensures (r.Some? <==> !route.ByScan?) && Takes(route, s, plan, ps)
  {
    hide BasenamesOver, PathsOver, IndexOver, Tabled, EntriesOver, LogOf, Passing, Accepted, PathList, Lossless, BasenameOf, FewHolders;
    all := [];
    if plan.exactPath.Some? && s.table.Some? {
      var hits := SearchExactPath(s.table.value, plan.exactPath.value, q, o, s.codec, LogOf(ps));
      return Some(hits), ByPath, hits;
    }
    if plan.TriesName() && s.entries.Some? {
      var named := SearchName(s.entries.value, plan.exactBasename.value, q, o, s.entryCodec, LogOf(ps));
      if named.Ok? {
        return Some(named.value), ByBasename, named.value;
      }
    }
    if plan.TriesTrigrams() {
      if FewPaths(plan, ps) {
        FewMeansFew(plan, ps, plan.Fast(q, o).pattern);
      }
      var found;
      found, all := SearchPathTrigram(s.pathTrigrams, s.table, plan.Fast(q, o), s.codec, EarlyLimit(sort, limit), LogOf(ps));
      if found.Ok? && found.value.Some? {
        CutEarly(all, [], EarlyLimit(sort, limit));
        return found.value, ByTrigrams, all;
      }
    }
    return None, ByScan, all;
  }

  /** The ordinals that are looked for have no effect when they are complete. */
  lemma AskedTheSame(reader: D.Reader, q: Query, plan: Plan, candidates: Option<set<nat>>, ps: seq<Stored>)
    requires q.ordinals.None? && Fits(plan, q, ps) && (candidates.Some? ==> Complete(candidates.value, plan, PathsOf(ps)))
    ensures Hits(D.Effective(reader, q.(ordinals := candidates)), ps, 0) == Hits(q, ps, 0)
    ensures candidates == Some({}) ==> Hits(q, ps, 0) == []
  {
    hide Hits, Fits, Complete;
    assert q.(ordinals := None) == q;
    if candidates.Some? {
      CompleteLosesNothing(q, plan, candidates.value, ps);
      if candidates.value == {} {
        HitsElsewhere(q.(ordinals := candidates), ps, 0);
      }
    }
  }

  /** The scan of the packages that are left. */
  method ScanPruned(reader: D.Reader, q: Query, candidates: Option<set<nat>>, plan: Plan, pathMatcher: Matcher, packageMatcher: Matcher,
                    decompress: Bytes -> Option<Bytes>, capacity: nat, ghost ps: seq<Stored>, ghost cuts: seq<nat>)
    returns (r: Result<seq<Hit>, D.DatabaseError>)
    requires (forall p | p in ps :: PackageSearch.Readable(q, p)) && D.StandsFor(reader, decompress, ps, cuts)
    requires FindsEntries(pathMatcher, q) && FindsFooters(packageMatcher)
    requires q.ordinals.None? && Fits(plan, q, ps) && (candidates.Some? ==> Complete(candidates.value, plan, PathsOf(ps)))
    ensures r == Ok(Hits(q, ps, 0))
  {
    var asked := q.(ordinals := candidates);
    assert FindsEntries(pathMatcher, asked) && forall p | p in ps :: PackageSearch.Readable(asked, p);
    hide FindsEntries, FindsFooters, PackageSearch.Readable, D.StandsFor, Hits, Fits, Complete;
    AskedTheSame(reader, q, plan, candidates, ps);
    r := D.SearchEntries(reader, asked, pathMatcher, packageMatcher, decompress, capacity, ps, cuts);
  }

  /** What the fast searches find has been filtered before, so the last filter changes nothing. */
  lemma FastIsShown(route: Route, all: seq<Hit>, plan: Plan, q: Query, o: Options, ps: seq<Stored>)
    requires plan.Valid() && !route.ByScan? && Answered(route, all, plan, q, o, ps)
    ensures forall h | h in all :: ShouldInclude(o, h)
  {
    hide ShouldInclude, Hits, LogOf, Passing, BasenameOf;
    var keep := (h: Hit) => ShouldInclude(o, h);
    match route
    case ByPath =>
      FilteredBefore(all, LogOf(ps), (h: Hit) => h.1.path == plan.exactPath.value && Accepted(q, o, h), keep);
    case ByBasename =>
      FilteredBefore(all, LogOf(ps), (h: Hit) => BasenameOf(h.1.path) == plan.exactBasename.value && Accepted(q, o, h), keep);
    case ByTrigrams =>
      FilteredBefore(all, LogOf(ps), (h: Hit) => plan.Fast(q, o).Finds(h), keep);
  }

  /** Sorting, filtering and cutting what was found up to a limit gives what all of it would give. */
  lemma PresentedAll(found: seq<Hit>, all: seq<Hit>, o: Options, sort: SearchSort, limit: Option<nat>)
    requires Cut(found, EarlyLimit(sort, limit)) == Cut(all, EarlyLimit(sort, limit))
    requires EarlyLimit(sort, limit).None? ==> found == all
    requires forall h | h in found :: ShouldInclude(o, h)
    ensures Cut(Arranged(sort, Passing(found, h => ShouldInclude(o, h))), limit) == Cut(Arranged(sort, all), limit)
  {
    hide ShouldInclude, Arranged, Passing;
    AllPass(found, h => ShouldInclude(o, h));
    if sort.Unsorted? {
      UnsortedStays(sort, found);
      UnsortedStays(sort, all);
    }
  }

  lemma UnsortedStays(sort: SearchSort, hits: seq<Hit>)
    requires sort.Unsorted?
    ensures Arranged(sort, hits) == hits
  {
    NothingToSort(sort, hits);
  }

  /** Without candidates nothing is found. */
  lemma NothingLeft(plan: Plan, q: Query, o: Options, sort: SearchSort, limit: Option<nat>, ps: seq<Stored>)
    requires Hits(q, ps, 0) == []
    ensures Answered(ByScan, [], plan, q, o, ps) && Cut(Arranged(sort, []), limit) == []
  {
    hide Hits, ShouldInclude;
    NoHitsPass(h => ShouldInclude(o, h));
    NothingArranged(sort);
  }

  lemma NoneMayMatch(plan: Plan, packages: seq<seq<Bytes>>)
    requires Complete({}, plan, packages)
    ensures forall paths | paths in packages :: !MayMatch(plan, paths)
  {
    hide MayMatch;
  }

  lemma ScanAnswers(plan: Plan, q: Query, o: Options, ps: seq<Stored>)
    ensures Answered(ByScan, Shown(q, o, ps), plan, q, o, ps)
    ensures Shown(q, o, ps) == Passing(Hits(q, ps, 0), h => ShouldInclude(o, h))
  {
  }

  lemma GeneratedPaths(s: Sidecars, ps: seq<Stored>)
    requires Generated(s, ps)
    ensures s.basenames.Some? ==> BasenamesOver(s.basenames.value, PathsOf(ps))
    ensures s.paths.Some? ==> PathsOver(s.paths.value, PathsOf(ps))
  {
  }

  /** The candidates, the fast searches, the pruned scan, and the end of the search, in this order. */
  method SearchRoutes(reader: D.Reader, s: Sidecars, cache: NgramCache.Cache, resolve: Bytes -> Option<set<nat>>, plan: Plan,
                q: Query, o: Options, sort: SearchSort, limit: Option<nat>, pathMatcher: Matcher, packageMatcher: Matcher,
                decompress: Bytes -> Option<Bytes>, capacity: nat, ghost ps: seq<Stored>, ghost cuts: seq<nat>)
    returns (r: Result<seq<Hit>, D.DatabaseError>, route: Route, ghost all: seq<Hit>)
    requires (forall p | p in ps :: PackageSearch.Readable(q, p)) && D.StandsFor(reader, decompress, ps, cuts) && |ps| <= U32_LIMIT
    requires FindsEntries(pathMatcher, q) && FindsFooters(packageMatcher) && q.ordinals.None? && q.labels.None?
    requires Generated(s, ps) && Knows(resolve, PathsOf(ps)) && NgramCache.NothingForNul(resolve)
    requires plan.Valid() && Fits(plan, q, ps) && (plan.exactBasename.Some? ==> plan.exactBasename.value != [])
    requires cache.Valid() && NgramCache.Right(cache.entries, resolve)
    modifies cache
    ensures cache.Valid() && NgramCache.Right(cache.entries, resolve)
    ensures Answered(route, all, plan, q, o, ps) && r == Ok(Cut(Arranged(sort, all), limit))
    ensures Takes(route, s, plan, ps)
         || (route.ByScan? && plan.exactPath.None? && plan.exactBasename.None? && forall paths | paths in PathsOf(ps) :: !MayMatch(plan, paths))
  {
    GeneratedPaths(s, ps);
    hide *;
    var candidates := CandidatePackages(s, cache, resolve, plan, PathsOf(ps));
    AskedTheSame(reader, q, plan, candidates, ps);
    all := [];
    if candidates == Some({}) && plan.exactPath.None? && plan.exactBasename.None? && plan.literal.None? {
      NothingLeft(plan, q, o, sort, limit, ps);
      NoneMayMatch(plan, PathsOf(ps));
      return Ok([]), ByScan, all;
    }
    var found;
    found, route, all := TryFast(s, plan, q, o, sort, limit, ps);
    var results: seq<Hit>;
    if found.Some? {
      results := found.value;
      FastIsShown(route, all, plan, q, o, ps);
      PresentedAll(results, all, o, sort, limit);
    } else {
      var scanned := ScanPruned(reader, q, candidates, plan, pathMatcher, packageMatcher, decompress, capacity, ps, cuts);
      if scanned.Err? {
        return scanned, route, all;
      }
      results := scanned.value;
      all := Shown(q, o, ps);
      ScanAnswers(plan, q, o, ps);
    }
    results := Present(results, o, sort, limit);
    return Ok(results), route, all;
  }

  /** What is returned, said without the filter and the sort themselves. */
  lemma SearchMeans(route: Route, all: seq<Hit>, plan: Plan, q: Query, o: Options, sort: SearchSort, limit: Option<nat>, ps: seq<Stored>)
    requires plan.Valid() && Answered(route, all, plan, q, o, ps) && q.ordinals.None? && q.labels.None?
    ensures forall h :: h in all <==> FoundBy(route, plan, q, ps, h) && MeetsOptions(o, h)
    ensures IsPresented(sort, limit, all, Cut(Arranged(sort, all), limit))
  {
    hide FoundBy, MeetsOptions, Answered, IsPresented;
    forall h ensures h in all <==> FoundBy(route, plan, q, ps, h) && MeetsOptions(o, h) {
      AnsweredFinds(route, all, plan, q, o, ps, h);
    }
    PresentedIs(sort, limit, all);
  }

  /**
   * `search_results_with_reader`. It never fails on readable files. Each route finds exactly the hits that
   * it stands for, the scan in particular those of a full scan, although it opens only the frames of packages
   * that are left; and of those, in the requested order, the first ones up to the limit are returned.
   */
  method Search(reader: D.Reader, s: Sidecars, cache: NgramCache.Cache, resolve: Bytes -> Option<set<nat>>, plan: Plan,
                q: Query, o: Options, sort: SearchSort, limit: Option<nat>, pathMatcher: Matcher, packageMatcher: Matcher,
                decompress: Bytes -> Option<Bytes>, capacity: nat, ghost ps: seq<Stored>, ghost cuts: seq<nat>)
    returns (r: Result<seq<Hit>, D.DatabaseError>, route: Route, ghost all: seq<Hit>)
    requires (forall p | p in ps :: PackageSearch.Readable(q, p)) && D.StandsFor(reader, decompress, ps, cuts) && |ps| <= U32_LIMIT
    requires FindsEntries(pathMatcher, q) && FindsFooters(packageMatcher) && q.ordinals.None? && q.labels.None?
    requires Generated(s, ps) && Knows(resolve, PathsOf(ps)) && NgramCache.NothingForNul(resolve)
    requires plan.Valid() && Fits(plan, q, ps) && (plan.exactBasename.Some? ==> plan.exactBasename.value != [])
    requires cache.Valid() && NgramCache.Right(cache.entries, resolve)
    modifies cache
    ensures cache.Valid() && NgramCache.Right(cache.entries, resolve)
    ensures Answered(route, all, plan, q, o, ps) && r == Ok(Cut(Arranged(sort, all), limit))
    ensures forall h :: h in all <==> FoundBy(route, plan, q, ps, h) && MeetsOptions(o, h)
    ensures IsPresented(sort, limit, all, r.value)
    ensures Takes(route, s, plan, ps)
         || (route.ByScan? && plan.exactPath.None? && plan.exactBasename.None? && forall paths | paths in PathsOf(ps) :: !MayMatch(plan, paths))
  {
    hide *;
    r, route, all := SearchRoutes(reader, s, cache, resolve, plan, q, o, sort, limit, pathMatcher, packageMatcher,
                                  decompress, capacity, ps, cuts);
    SearchMeans(route, all, plan, q, o, sort, limit, ps);
  }

  lemma NothingArranged(sort: SearchSort)
    ensures Arranged(sort, []) == []
  {
  }

  // ---------- when every route agrees with the full scan ----------

  /** Every route that the plan allows asks the question of the full scan, of the paths in this database. */
  ghost predicate RoutesAsk(plan: Plan, q: Query, o: Options, log: seq<Hit>)
    requires plan.Valid()
  {
    forall h | h in log ::
      && (plan.exactPath.Some? ==> (q.exactPath(h.1.path) <==> h.1.path == plan.exactPath.value))
      && (plan.TriesName() ==> (q.exactPath(h.1.path) <==> BasenameOf(h.1.path) == plan.exactBasename.value))
      && (plan.TriesTrigrams() ==> (q.exactPath(h.1.path) <==> plan.Fast(q, o).FindsPath(h.1.path)))
  }

  /** Then what is found is, as a multiset, what the full scan shows, whichever route was taken. */
  lemma AnswersAgree(route: Route, all: seq<Hit>, plan: Plan, q: Query, o: Options, ps: seq<Stored>)
    requires plan.Valid() && Answered(route, all, plan, q, o, ps) && RoutesAsk(plan, q, o, LogOf(ps))
    requires q.labels.None? && (route.ByScan? || Straight(q))
    ensures multiset(all) == multiset(Shown(q, o, ps))
  {
    hide Hits, LogOf, Passing, ShouldInclude, BasenameOf, Contains;
    if !route.ByScan? {
      ScanIsLog(q, o, ps);
    }
    match route
    case ByPath =>
      PassingAlike(LogOf(ps), (h: Hit) => Reports(q, o, h), (h: Hit) => h.1.path == plan.exactPath.value && Accepted(q, o, h));
    case ByBasename =>
      PassingAlike(LogOf(ps), (h: Hit) => Reports(q, o, h),
                   (h: Hit) => BasenameOf(h.1.path) == plan.exactBasename.value && Accepted(q, o, h));
    case ByTrigrams =>
      PassingAlike(LogOf(ps), (h: Hit) => Reports(q, o, h), (h: Hit) => plan.Fast(q, o).Finds(h));
    case ByScan =>
  }
}
