/**
 * Searching what was written: a list of packages, encoded as the database writer does it and then
 * searched block by block, yields exactly the entries one would pick out of the list by hand.
 */
module PackageSearch {
  import opened Wrappers
  import opened Bytes
  import opened Files
  import opened StorePaths
  import opened FrcodeFormat
  import opened FrcodeRoundTrip
  import opened TextLines
  import opened SearchSpec
  import opened FrameSearch
  import opened StreamSearch

  /** A package as stored: its store path, the JSON of that path, and its encodable entries. */
  datatype Stored = Stored(store: StorePath, json: Bytes, entries: seq<FileTreeEntry>)

  function ToEntry(e: FileTreeEntry): Entry {
    Entry(EncodeMeta(e.node), e.path)
  }

  function ToPackage(p: Stored): Package {
    Package(seq(|p.entries|, i requires 0 <= i < |p.entries| => ToEntry(p.entries[i])), Entry([112], p.json))
  }

  function ToPackages(ps: seq<Stored>): seq<Package> {
    if ps == [] then [] else [ToPackage(ps[0])] + ToPackages(ps[1..])
  }

  /** What the writer guarantees of a stored package, with JSON that parses back. */
  predicate Readable(q: Query, p: Stored) {
    && (forall e | e in p.entries :: IsEncodable(e))
    && Clean(p.json) && q.parse(p.json) == Some(p.store)
  }

  // ---------- picking by hand ----------

  function LineOf(e: FileTreeEntry): Bytes {
    EncodeMeta(e.node) + [NUL] + e.path
  }

  predicate Wanted(q: Query, e: FileTreeEntry) {
    q.lineMatches(LineOf(e)) && q.exactPath(e.path)
  }

  function WantedOf(q: Query, entries: seq<FileTreeEntry>): seq<FileTreeEntry> {
    if entries == [] then []
    else
      var n := |entries| - 1;
      WantedOf(q, entries[..n]) + if Wanted(q, entries[n]) then [entries[n]] else []
  }

  /** The wanted entries of every accepted package, in order; package `i` has ordinal `first + i`. */
  function Hits(q: Query, ps: seq<Stored>, first: nat): seq<Hit> {
    if ps == [] then []
    else Reported(q, ps[0].store, first, WantedOf(q, ps[0].entries)) + Hits(q, ps[1..], first + 1)
  }

  /** A hit in a package, said of its entry and of the name, hash, label and ordinal of the package. */
  ghost predicate IsHit(q: Query, p: Stored, ordinal: nat, h: Hit) {
    && h.0 == p.store && h.1 in p.entries
    && q.exactPath(h.1.path) && q.lineMatches(EncodeMeta(h.1.node) + [0] + h.1.path)
    && (q.packagePattern.Some? ==> q.packagePattern.value(p.store.name))
    && (q.hash.Some? ==> p.store.hash == q.hash.value)
    && (q.labels.Some? ==> p.store.origin.attr + ['.'] + p.store.origin.output in q.labels.value)
    && (q.ordinals.Some? ==> ordinal in q.ordinals.value)
  }

  /** Some package has the hit; the first one has this ordinal. */
  ghost predicate SomeHit(q: Query, ps: seq<Stored>, first: nat, h: Hit) {
    exists i :: 0 <= i < |ps| && IsHit(q, ps[i], first + i, h)
  }

  /** Those are the hits. */
  lemma {:induction false} HitsAre(q: Query, ps: seq<Stored>, first: nat, h: Hit)
    ensures h in Hits(q, ps, first) <==> SomeHit(q, ps, first, h)
    decreases |ps|
  {
    hide IsHit, WantedOf, Reported;
    if ps != [] {
      HitsAre(q, ps[1..], first + 1, h);
      ReportedAre(q, ps[0], first, h);
      FirstOrLater(q, ps, first, h);
      hide SomeHit;
    }
  }

  lemma FirstOrLater(q: Query, ps: seq<Stored>, first: nat, h: Hit)
    requires ps != []
    ensures SomeHit(q, ps, first, h) <==> IsHit(q, ps[0], first, h) || SomeHit(q, ps[1..], first + 1, h)
  {
    hide IsHit;
    if IsHit(q, ps[0], first, h) {
      assert IsHit(q, ps[0], first + 0, h);
    }
    if SomeHit(q, ps[1..], first + 1, h) {
      var i :| 0 <= i < |ps[1..]| && IsHit(q, ps[1..][i], first + 1 + i, h);
      assert ps[1..][i] == ps[1 + i] && first + 1 + i == first + (1 + i);
    }
    if i :| 0 <= i < |ps| && IsHit(q, ps[i], first + i, h) && i > 0 {
      assert ps[1..][i - 1] == ps[i] && first + 1 + (i - 1) == first + i;
    }
  }

  lemma ReportedAre(q: Query, p: Stored, ordinal: nat, h: Hit)
    ensures h in Reported(q, p.store, ordinal, WantedOf(q, p.entries)) <==> IsHit(q, p, ordinal, h)
  {
    WantedAre(q, p.entries, h.1);
    var wanted := WantedOf(q, p.entries);
    if h.0 == p.store && h.1 in wanted {
      var k :| 0 <= k < |wanted| && wanted[k] == h.1;
      assert Attach(p.store, wanted)[k] == h;
    }
  }

  lemma {:induction false} WantedAre(q: Query, entries: seq<FileTreeEntry>, e: FileTreeEntry)
    ensures e in WantedOf(q, entries) <==> e in entries && q.exactPath(e.path) && q.lineMatches(EncodeMeta(e.node) + [0] + e.path)
  {
    hide EncodeMeta;
    if entries != [] {
      var n := |entries| - 1;
      WantedAre(q, entries[..n], e);
      assert entries == entries[..n] + [entries[n]];
    }
  }

  // ---------- the lines of a database ----------

  function EntryLines(entries: seq<FileTreeEntry>): seq<Bytes> {
    seq(|entries|, i requires 0 <= i < |entries| => LineOf(entries[i]))
  }

  function StoredLines(p: Stored): seq<Bytes> {
    EntryLines(p.entries) + [FOOTER_TAG + p.json]
  }

  function DatabaseLines(ps: seq<Stored>): seq<Bytes> {
    if ps == [] then [] else StoredLines(ps[0]) + DatabaseLines(ps[1..])
  }

  lemma EntryLine(q: Query, e: FileTreeEntry)
    requires IsEncodable(e)
    ensures IsLine(LineOf(e)) && !IsFooter(LineOf(e))
    ensures EntryOn(q, LineOf(e)) == Ok(if q.exactPath(e.path) then Some(e) else None)
  {
    var meta, line := EncodeMeta(e.node), LineOf(e);
    MetaIsClean(e);
    MetaRoundTrip(e.node);
    assert line[..|meta|] == meta && line[|meta| + 1..] == e.path;
    IndexOfIs(line, NUL, |meta|);
    NotAFooter(meta, e.path);
  }

  /** Clean metadata other than the footer tag does not start a footer. */
  lemma NotAFooter(meta: Bytes, path: Bytes)
    requires Clean(meta) && meta != [] && meta != [112]
    ensures !IsFooter(meta + [NUL] + path)
  {
    var line := meta + [NUL] + path;
    if |meta| == 1 {
      assert meta == [meta[0]] && line[..2][0] == meta[0];
    } else {
      assert line[..2][1] == meta[1] && meta[1] in meta;
    }
  }

  /** Scanning the entries of a package collects the wanted ones. */
  lemma {:induction false} ScanEntries(q: Query, s: Progress, entries: seq<FileTreeEntry>)
    requires forall e | e in entries :: IsEncodable(e)
    ensures ScanLines(q, s, EntryLines(entries)) == Ok(s.(pending := s.pending + WantedOf(q, entries)))
  {
    hide EntryOn, IsFooter, EncodeMeta, IsEncodable, IsLine;
    if entries == [] {
      assert s.pending + [] == s.pending;
    } else {
      var n := |entries| - 1;
      ScanEntries(q, s, entries[..n]);
      EntryLine(q, entries[n]);
      Assoc(s.pending, WantedOf(q, entries[..n]), if Wanted(q, entries[n]) then [entries[n]] else []);
      assert s.pending + WantedOf(q, entries[..n]) + [] == s.pending + WantedOf(q, entries[..n]);
      assert EntryLines(entries)[..n] == EntryLines(entries[..n]);
    }
  }

  /** Scanning a package reports its wanted entries under the ordinal it is met with. */
  lemma ScanStored(q: Query, s: Progress, p: Stored)
    requires Readable(q, p) && s.pending == []
    ensures ScanLines(q, s, StoredLines(p)) ==
            if s.ordinal + 1 > MAX_ORDINAL then Err(OrdinalOverflow)
            else Ok(Progress(s.matches + Reported(q, p.store, s.ordinal, WantedOf(q, p.entries)), [], s.ordinal + 1))
  {
    var footer := FOOTER_TAG + p.json;
    ScanEntries(q, s, p.entries);
    assert footer[..2] == FOOTER_TAG && footer[2..] == p.json;
    assert StoredLines(p)[..|p.entries|] == EntryLines(p.entries);
    assert Reported(q, p.store, s.ordinal, []) == [] && s.matches + [] == s.matches;
    assert s.pending + WantedOf(q, p.entries) == WantedOf(q, p.entries);
  }

  /** Scanning a database reports exactly the hits picked by hand, unless its ordinals overflow. */
  lemma {:induction false} ScanDatabase(q: Query, s: Progress, ps: seq<Stored>)
    requires (forall p | p in ps :: Readable(q, p)) && s.pending == []
    ensures ScanLines(q, s, DatabaseLines(ps)) ==
            if ps != [] && s.ordinal + |ps| > MAX_ORDINAL then Err(OrdinalOverflow)
            else Ok(Progress(s.matches + Hits(q, ps, s.ordinal), [], s.ordinal + |ps|))
    decreases |ps|
  {
    hide ScanLines, Readable, Reported, StoredLines;
    if ps == [] {
      NothingScanned(q, s, DatabaseLines(ps));
      assert DatabaseLines(ps)[..0] == DatabaseLines(ps) && s.matches + [] == s.matches;
    } else {
      ScanStored(q, s, ps[0]);
      ScanConcat(q, s, StoredLines(ps[0]), DatabaseLines(ps[1..]));
      if s.ordinal + 1 <= MAX_ORDINAL {
        var hits := Reported(q, ps[0].store, s.ordinal, WantedOf(q, ps[0].entries));
        ScanDatabase(q, Progress(s.matches + hits, [], s.ordinal + 1), ps[1..]);
        Assoc(s.matches, hits, Hits(q, ps[1..], s.ordinal + 1));
      }
    }
  }

  // ---------- from lines to text ----------

  lemma CleanLines(q: Query, p: Stored)
    requires Readable(q, p)
    ensures CleanPackage(ToPackage(p)) && AreLines(StoredLines(p))
  {
    forall e | e in ToPackage(p).entries ensures CleanEntry(e) {
      var i :| 0 <= i < |p.entries| && e == ToEntry(p.entries[i]);
      MetaIsClean(p.entries[i]);
    }
    forall line | line in StoredLines(p) ensures IsLine(line) {
      if line != FOOTER_TAG + p.json {
        var i :| 0 <= i < |p.entries| && line == LineOf(p.entries[i]);
        EntryLine(q, p.entries[i]);
      }
    }
  }

  lemma LinesOfPackage(p: Stored)
    ensures PackageLines(ToPackage(p)) == Join(StoredLines(p))
  {
    var package, lines := ToPackage(p), StoredLines(p);
    JoinEntries(p.entries, package.entries, 0);
    assert lines[..|p.entries|] == EntryLines(p.entries);
    assert EntryLines(p.entries)[0..] == EntryLines(p.entries) && package.entries[0..] == package.entries;
    assert [112] + [NUL] + p.json == lines[|p.entries|];
    Assoc(Join(EntryLines(p.entries)), lines[|p.entries|], [NEWLINE]);
  }

  lemma JoinOne(line: Bytes)
    ensures Join([line]) == line + [NEWLINE]
  {
    var lines := [line];
    assert lines[..0] == [] && [] + line == line;
  }

  lemma {:induction false} JoinEntries(entries: seq<FileTreeEntry>, es: seq<Entry>, k: nat)
    requires |es| == |entries| && k <= |entries| && forall i | 0 <= i < |es| :: es[i] == ToEntry(entries[i])
    ensures Lines(es[k..]) == Join(EntryLines(entries)[k..])
    decreases |entries| - k
  {
    var lines := EntryLines(entries);
    if k < |entries| {
      JoinEntries(entries, es, k + 1);
      assert es[k..][1..] == es[k + 1..] && lines[k..] == [lines[k]] + lines[k + 1..];
      JoinConcat([lines[k]], lines[k + 1..]);
      JoinOne(lines[k]);
    }
  }

  /** The written packages stand for the lines of the database. */
  lemma {:induction false} LinesOfDatabase(q: Query, ps: seq<Stored>)
    requires forall p | p in ps :: Readable(q, p)
    ensures AreLines(DatabaseLines(ps)) && AllLines(ToPackages(ps)) == Join(DatabaseLines(ps))
    ensures forall p | p in ToPackages(ps) :: CleanPackage(p)
  {
    hide Readable, CleanPackage, StoredLines, PackageLines;
    if ps != [] {
      CleanLines(q, ps[0]);
      LinesOfPackage(ps[0]);
      LinesOfDatabase(q, ps[1..]);
      JoinConcat(StoredLines(ps[0]), DatabaseLines(ps[1..]));
      assert ToPackages(ps)[1..] == ToPackages(ps[1..]);
    }
  }

  /**
   * Searching the stream of readable packages returns the hits picked by hand, for every query and
   * every starting ordinal that leaves ordinals for all of them, and fails otherwise.
   */
  method SearchPackages(raw: Bytes, capacity: nat, q: Query, pathMatcher: Matcher, packageMatcher: Matcher,
                        start: Option<nat>, ghost ps: seq<Stored>)
    returns (r: Result<seq<Hit>, SearchError>)
    requires (forall p | p in ps :: Readable(q, p)) && raw == PrintedAll(ToPackages(ps))
    requires FindsEntries(pathMatcher, q) && FindsFooters(packageMatcher)
    ensures r.Ok? <==> ps == [] || Begin(start).ordinal + |ps| <= MAX_ORDINAL
    ensures r.Ok? ==> r.value == Hits(q, ps, Begin(start).ordinal)
  {
    LinesOfDatabase(q, ps);
    ScanDatabase(q, Begin(start), ps);
    PrintedStandsForLines(ToPackages(ps));
    r := SearchFrame(raw, capacity, q, pathMatcher, packageMatcher, start, DatabaseLines(ps));
  }

  // ---------- hits and ordinals ----------

  /** Hits of consecutive packages. */
  lemma {:induction false} HitsConcat(q: Query, a: seq<Stored>, b: seq<Stored>, first: nat)
    ensures Hits(q, a + b, first) == Hits(q, a, first) + Hits(q, b, first + |a|)
  {
    hide Reported, WantedOf;
    if a == [] {
      assert a + b == b;
    } else {
      assert (a + b)[1..] == a[1..] + b;
      HitsConcat(q, a[1..], b, first + 1);
      Assoc(Reported(q, a[0].store, first, WantedOf(q, a[0].entries)), Hits(q, a[1..], first + 1), Hits(q, b, first + |a|));
    }
  }

  /** Without a restriction on ordinals it does not matter where the numbering starts. */
  lemma {:induction false} HitsUnnumbered(q: Query, ps: seq<Stored>, a: nat, b: nat)
    requires q.ordinals.None?
    ensures Hits(q, ps, a) == Hits(q, ps, b)
  {
    if ps != [] {
      HitsUnnumbered(q, ps[1..], a + 1, b + 1);
    }
  }

  /** Packages none of whose ordinals is asked for have no hits. */
  lemma {:induction false} HitsElsewhere(q: Query, ps: seq<Stored>, first: nat)
    requires q.ordinals.Some? && forall i | first <= i < first + |ps| :: i !in q.ordinals.value
    ensures Hits(q, ps, first) == []
  {
    if ps != [] {
      HitsElsewhere(q, ps[1..], first + 1);
    }
  }

  /** The hits of an unrestricted search, each with the ordinal of its package. */
  function Numbered(q: Query, ps: seq<Stored>, first: nat): seq<(nat, Hit)> {
    if ps == [] then [] else Number(first, Reported(q, ps[0].store, first, WantedOf(q, ps[0].entries))) + Numbered(q, ps[1..], first + 1)
  }

  function Number(ordinal: nat, hits: seq<Hit>): seq<(nat, Hit)> {
    seq(|hits|, i requires 0 <= i < |hits| => (ordinal, hits[i]))
  }

  /** The hits whose ordinal is in the set, in order. */
  function Among(ordinals: set<nat>, hits: seq<(nat, Hit)>): seq<Hit> {
    if hits == [] then []
    else
      var n := |hits| - 1;
      Among(ordinals, hits[..n]) + if hits[n].0 in ordinals then [hits[n].1] else []
  }

  lemma {:induction false} AmongConcat(ordinals: set<nat>, a: seq<(nat, Hit)>, b: seq<(nat, Hit)>)
    ensures Among(ordinals, a + b) == Among(ordinals, a) + Among(ordinals, b)
    decreases |b|
  {
    if b == [] {
      assert a + b == a;
    } else {
      var n := |b| - 1;
      assert (a + b)[..|a| + n] == a + b[..n];
      AmongConcat(ordinals, a, b[..n]);
      Assoc(Among(ordinals, a), Among(ordinals, b[..n]), if b[n].0 in ordinals then [b[n].1] else []);
    }
  }

  lemma {:induction false} AmongOne(ordinals: set<nat>, ordinal: nat, hits: seq<Hit>)
    ensures Among(ordinals, Number(ordinal, hits)) == if ordinal in ordinals then hits else []
    decreases |hits|
  {
    if hits != [] {
      var n := |hits| - 1;
      assert Number(ordinal, hits)[..n] == Number(ordinal, hits[..n]);
      AmongOne(ordinals, ordinal, hits[..n]);
      assert hits == hits[..n] + [hits[n]];
    }
  }

  /** Restricting the search to some ordinals is the full search followed by a filter. */
  lemma {:induction false} RestrictedIsFiltered(q: Query, ordinals: set<nat>, ps: seq<Stored>, first: nat)
    requires q.ordinals.None?
    ensures Hits(q.(ordinals := Some(ordinals)), ps, first) == Among(ordinals, Numbered(q, ps, first))
  {
    if ps != [] {
      var hits := Reported(q, ps[0].store, first, WantedOf(q, ps[0].entries));
      WantedAlike(q, q.(ordinals := Some(ordinals)), ps[0].entries);
      RestrictedIsFiltered(q, ordinals, ps[1..], first + 1);
      AmongConcat(ordinals, Number(first, hits), Numbered(q, ps[1..], first + 1));
      AmongOne(ordinals, first, hits);
    }
  }

  /** Which entries are wanted depends on the patterns alone. */
  lemma {:induction false} WantedAlike(q: Query, p: Query, entries: seq<FileTreeEntry>)
    requires q.lineMatches == p.lineMatches && q.exactPath == p.exactPath
    ensures WantedOf(q, entries) == WantedOf(p, entries)
  {
    if entries != [] {
      WantedAlike(q, p, entries[..|entries| - 1]);
    }
  }
}
