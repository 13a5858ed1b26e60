/**
 * What a search means, one line at a time: matching entries wait for the footer of their package,
 * and the footer decides whether they are reported.
 */
module SearchSpec {
  import opened Wrappers
  import opened Bytes
  import opened Files
  import opened StorePaths

  const FOOTER_TAG: Bytes := [112, NUL]
  const MAX_ORDINAL := 0xFFFF_FFFF

  /** Patterns are kept as the predicates they stand for, and JSON as a partial function on bytes. */
  datatype Query = Query(
    lineMatches: Bytes -> bool,
    exactPath: Bytes -> bool,
    parse: Bytes -> Option<StorePath>,
    packagePattern: Option<string -> bool>,
    hash: Option<Hash>,
    labels: Option<set<string>>,
    ordinals: Option<set<nat>>)
  {
    predicate Accepts(package: StorePath, ordinal: nat) {
      && (packagePattern.Some? ==> packagePattern.value(package.name))
      && (hash.Some? ==> hash.value == package.hash)
      && (labels.Some? ==> Label(package) in labels.value)
      && (ordinals.Some? ==> ordinal in ordinals.value)
    }
  }

  datatype SearchError =
    | EntryParse(entry: Bytes)
    | StorePathParse(json: Bytes)
    | OrdinalOverflow
    | MissingPackageEntry

  type Hit = (StorePath, FileTreeEntry)

  /** Reported hits, entries still waiting for their footer, and the ordinal of the next footer. */
  datatype Progress = Progress(matches: seq<Hit>, pending: seq<FileTreeEntry>, ordinal: nat)

  predicate IsFooter(line: Bytes) {
    StartsWith(line, FOOTER_TAG)
  }

  function Json(footer: Bytes): Bytes
    requires IsFooter(footer)
  {
    footer[2..]
  }

  function Attach(package: StorePath, entries: seq<FileTreeEntry>): seq<Hit> {
    seq(|entries|, i requires 0 <= i < |entries| => (package, entries[i]))
  }

  function Reported(q: Query, package: StorePath, ordinal: nat, entries: seq<FileTreeEntry>): seq<Hit> {
    if q.Accepts(package, ordinal) then Attach(package, entries) else []
  }

  /** The entry on a matching line, when the pattern also matches its path alone. */
  function EntryOn(q: Query, line: Bytes): (r: Result<Option<FileTreeEntry>, SearchError>)
    ensures r.Err? ==> r.error == EntryParse(line)
  {
    var sep := IndexOf(line, NUL);
    if sep == |line| then Err(EntryParse(line))
    else if !q.exactPath(line[sep + 1..]) then Ok(None)
    else match DecodeMeta(line[..sep])
      case None => Err(EntryParse(line))
      case Some(node) => Ok(Some(FileTreeEntry(line[sep + 1..], node)))
  }

  /** That is the entry whose line it is, if its path matches; a line that is no entry only passes with a path that does not. */
  lemma EntryOnMeans(q: Query, line: Bytes, entry: FileTreeEntry)
    ensures EntryOn(q, line) == Ok(Some(entry)) <==> IsEntryLine(line, entry) && q.exactPath(entry.path)
    ensures EntryOn(q, line) == Ok(None) <==> exists meta, path :: line == meta + [0] + path && NUL !in meta && !q.exactPath(path)
  {
    DecodesEntries(line, entry);
    hide IsEntryLine, DecodeMeta;
    var sep := IndexOf(line, NUL);
    if sep < |line| {
      assert line == line[..sep] + [0] + line[sep + 1..];
    }
    forall meta, path | line == meta + [0] + path && NUL !in meta ensures sep < |line| && path == line[sep + 1..] {
      assert line[|meta|] == NUL && meta == line[..|meta|];
      IndexOfIs(line, NUL, |meta|);
    }
  }

  function ScanLine(q: Query, s: Progress, line: Bytes): Result<Progress, SearchError> {
    if IsFooter(line) then
      if s.ordinal + 1 > MAX_ORDINAL then Err(OrdinalOverflow)
      else if s.pending == [] then Ok(s.(ordinal := s.ordinal + 1))
      else match q.parse(Json(line))
        case None => Err(StorePathParse(Json(line)))
        case Some(package) =>
          Ok(Progress(s.matches + Reported(q, package, s.ordinal, s.pending), [], s.ordinal + 1))
    else if !q.lineMatches(line) then Ok(s)
    else match EntryOn(q, line)
      case Err(e) => Err(e)
      case Ok(None) => Ok(s)
      case Ok(Some(entry)) => Ok(s.(pending := s.pending + [entry]))
  }

  function ScanLines(q: Query, s: Progress, lines: seq<Bytes>): Result<Progress, SearchError> {
    if lines == [] then Ok(s)
    else match ScanLines(q, s, lines[..|lines| - 1])
      case Err(e) => Err(e)
      case Ok(t) => ScanLine(q, t, lines[|lines| - 1])
  }

  /** A whole stream: every reported entry must have found its footer. */
  function SearchLines(q: Query, start: Progress, lines: seq<Bytes>): Result<seq<Hit>, SearchError> {
    match ScanLines(q, start, lines)
    case Err(e) => Err(e)
    case Ok(t) => if t.pending == [] then Ok(t.matches) else Err(MissingPackageEntry)
  }

  /** Scanning is a fold, so it does not matter where a list of lines is cut. */
  lemma {:induction false} ScanConcat(q: Query, s: Progress, a: seq<Bytes>, b: seq<Bytes>)
    ensures ScanLines(q, s, a + b) ==
            match ScanLines(q, s, a)
            case Err(e) => Err(e)
            case Ok(t) => ScanLines(q, t, b)
    decreases |b|
  {
    if b == [] {
      assert a + b == a;
    } else {
      var n := |b| - 1;
      ScanConcat(q, s, a, b[..n]);
      assert (a + b)[..|a| + n] == a + b[..n];
    }
  }

  /** Line `i` is a matching entry and no footer follows it. */
  ghost predicate Unclosed(q: Query, lines: seq<Bytes>, i: nat) {
    && i < |lines| && q.lineMatches(lines[i]) && EntryOn(q, lines[i]).Ok? && EntryOn(q, lines[i]).value.Some?
    && forall j | i <= j < |lines| :: !IsFooter(lines[j])
  }

  /** Entries are left waiting exactly when a matching entry follows the last footer. */
  lemma {:induction false} PendingMeansUnclosed(q: Query, s: Progress, lines: seq<Bytes>)
    requires s.pending == [] && ScanLines(q, s, lines).Ok?
    ensures ScanLines(q, s, lines).value.pending != [] <==> exists i :: Unclosed(q, lines, i)
  {
    hide EntryOn, IsFooter;
    if lines != [] {
      var n := |lines| - 1;
      var front := lines[..n];
      PendingMeansUnclosed(q, s, front);
      if IsFooter(lines[n]) {
        assert forall i :: !Unclosed(q, lines, i);
      } else {
        assert forall i | 0 <= i < n :: Unclosed(q, lines, i) <==> Unclosed(q, front, i);
        assert Unclosed(q, lines, n) <==> q.lineMatches(lines[n]) && EntryOn(q, lines[n]).Ok? && EntryOn(q, lines[n]).value.Some?;
      }
    }
  }

  // ---------- looking ahead to the next footer ----------

  /** The first footer at or after line `k`, or the number of lines. */
  function NextFooter(lines: seq<Bytes>, k: nat): (f: nat)
    requires k <= |lines|
    ensures k <= f <= |lines|
    ensures f < |lines| ==> IsFooter(lines[f])
    ensures forall i | k <= i < f :: !IsFooter(lines[i])
    decreases |lines| - k
  {
    if k == |lines| || IsFooter(lines[k]) then k else NextFooter(lines, k + 1)
  }

  datatype Settled = Settled(matches: seq<Hit>, pending: seq<FileTreeEntry>) | Broken

  /** The progress with its waiting entries handed to the next footer already, if there is one. */
  function Settle(q: Query, s: Progress, lines: seq<Bytes>, k: nat): Settled
    requires k <= |lines|
  {
    var f := NextFooter(lines, k);
    if s.pending == [] || f == |lines| then Settled(s.matches, s.pending)
    else match q.parse(Json(lines[f]))
      case None => Broken
      case Some(package) => Settled(s.matches + Reported(q, package, s.ordinal, s.pending), [])
  }

  /** Passing a line that adds no entry leaves the settled progress as it is. */
  lemma SettleSkip(q: Query, s: Progress, lines: seq<Bytes>, k: nat)
    requires k < |lines| && Settle(q, s, lines, k).Settled?
    requires IsFooter(lines[k]) ==> s.ordinal + 1 <= MAX_ORDINAL
    requires !IsFooter(lines[k]) ==> !q.lineMatches(lines[k]) || EntryOn(q, lines[k]) == Ok(None)
    ensures ScanLine(q, s, lines[k]).Ok?
    ensures Settle(q, ScanLine(q, s, lines[k]).value, lines, k + 1) == Settle(q, s, lines, k)
  {
  }

  /** Passing an entry hands it to the next footer, or lets it wait when there is none. */
  lemma SettleTake(q: Query, s: Progress, lines: seq<Bytes>, k: nat, entry: FileTreeEntry)
    requires k < |lines| && Settle(q, s, lines, k).Settled?
    requires !IsFooter(lines[k]) && q.lineMatches(lines[k]) && EntryOn(q, lines[k]) == Ok(Some(entry))
    ensures ScanLine(q, s, lines[k]).Ok?
    ensures NextFooter(lines, k + 1) < |lines| ==> Settle(q, s, lines, k).pending == []
    ensures var before, after := Settle(q, s, lines, k), Settle(q, ScanLine(q, s, lines[k]).value, lines, k + 1);
            var f := NextFooter(lines, k + 1);
            if f == |lines| then after == Settled(before.matches, before.pending + [entry])
            else match q.parse(Json(lines[f]))
              case None => after == Broken
              case Some(package) => after == Settled(before.matches + Reported(q, package, s.ordinal, [entry]), [])
  {
    var f := NextFooter(lines, k + 1);
    assert NextFooter(lines, k) == f;
    if f < |lines| && q.parse(Json(lines[f])).Some? {
      AttachOne(q, q.parse(Json(lines[f])).value, s.ordinal, s.pending, entry);
      if s.pending == [] {
        assert Reported(q, q.parse(Json(lines[f])).value, s.ordinal, []) == [];
      }
    }
  }

  lemma AttachOne(q: Query, package: StorePath, ordinal: nat, entries: seq<FileTreeEntry>, entry: FileTreeEntry)
    ensures Reported(q, package, ordinal, entries + [entry])
         == Reported(q, package, ordinal, entries) + Reported(q, package, ordinal, [entry])
  {
  }

  /** A footer that cannot be read breaks the scan as soon as an entry waits for it. */
  lemma {:induction false} BrokenFails(q: Query, s: Progress, lines: seq<Bytes>, k: nat)
    requires k <= |lines| && Settle(q, s, lines, k).Broken?
    ensures ScanLines(q, s, lines[k..]).Err?
    decreases |lines| - k
  {
    ScanFirst(q, s, lines, k);
    if !IsFooter(lines[k]) && ScanLine(q, s, lines[k]).Ok? {
      BrokenFails(q, ScanLine(q, s, lines[k]).value, lines, k + 1);
    }
  }

  lemma ScanFirst(q: Query, s: Progress, lines: seq<Bytes>, k: nat)
    requires k < |lines|
    ensures ScanLines(q, s, lines[k..]) ==
            match ScanLine(q, s, lines[k])
            case Err(e) => Err(e)
            case Ok(t) => ScanLines(q, t, lines[k + 1..])
  {
    assert lines[k..] == [lines[k]] + lines[k + 1..];
    ScanConcat(q, s, [lines[k]], lines[k + 1..]);
    var one := [lines[k]];
    assert one[..0] == [] && ScanLines(q, s, one) == ScanLine(q, s, lines[k]);
  }

  // ---------- counting footers ----------

  /** The lines before `k` that are footers, in order. */
  function FooterLines(lines: seq<Bytes>, k: nat): (r: seq<nat>)
    requires k <= |lines|
    ensures forall m | 0 <= m < |r| :: r[m] < k && IsFooter(lines[r[m]])
  {
    if k == 0 then [] else FooterLines(lines, k - 1) + if IsFooter(lines[k - 1]) then [k - 1] else []
  }

  /** The ordinal counts the footers passed, and a scan that succeeds never exceeds the largest one. */
  lemma {:induction false} OrdinalCounts(q: Query, s: Progress, lines: seq<Bytes>, k: nat)
    requires k <= |lines| && ScanLines(q, s, lines[..k]).Ok?
    ensures ScanLines(q, s, lines[..k]).value.ordinal == s.ordinal + |FooterLines(lines, k)|
    ensures FooterLines(lines, k) != [] ==> s.ordinal + |FooterLines(lines, k)| <= MAX_ORDINAL
    decreases k
  {
    if k > 0 {
      assert lines[..k][..k - 1] == lines[..k - 1];
      OrdinalCounts(q, s, lines, k - 1);
    }
  }

  /** The footers before a line are the first of all footers, and the next one of all is the next footer. */
  lemma {:induction false} NextFooterLine(lines: seq<Bytes>, k: nat, n: nat)
    requires k <= n <= |lines|
    ensures FooterLines(lines, k) <= FooterLines(lines, n)
    ensures NextFooter(lines, k) < n <==> |FooterLines(lines, k)| < |FooterLines(lines, n)|
    ensures NextFooter(lines, k) < n ==> FooterLines(lines, n)[|FooterLines(lines, k)|] == NextFooter(lines, k)
    decreases n - k
  {
    hide NextFooter;
    if k < n {
      NextFooterLine(lines, k, n - 1);
      assert FooterLines(lines, n) == FooterLines(lines, n - 1) + if IsFooter(lines[n - 1]) then [n - 1] else [];
    }
  }

  // ---------- being at a line ----------

  /** After the first `k` lines the scan is fine, and settled it has these hits and these waiting entries. */
  ghost predicate AtLine(q: Query, s: Progress, lines: seq<Bytes>, k: nat, matches: seq<Hit>, pending: seq<FileTreeEntry>) {
    && k <= |lines|
    && ScanLines(q, s, lines[..k]).Ok?
    && Settle(q, ScanLines(q, s, lines[..k]).value, lines, k) == Settled(matches, pending)
  }

  /** There are ordinals enough for every footer. */
  ghost predicate EnoughOrdinals(s: Progress, lines: seq<Bytes>) {
    FooterLines(lines, |lines|) == [] || s.ordinal + |FooterLines(lines, |lines|)| <= MAX_ORDINAL
  }

  /** The scan up to a line, and one line further. */
  lemma ScanNext(q: Query, s: Progress, lines: seq<Bytes>, k: nat)
    requires k < |lines| && ScanLines(q, s, lines[..k]).Ok?
    ensures var before := ScanLines(q, s, lines[..k]).value;
            && ScanLines(q, s, lines[..k + 1]) == ScanLine(q, before, lines[k])
            && before.ordinal == s.ordinal + |FooterLines(lines, k)|
    ensures IsFooter(lines[k]) && EnoughOrdinals(s, lines) ==>
              ScanLines(q, s, lines[..k]).value.ordinal + 1 <= MAX_ORDINAL
  {
    hide NextFooter;
    assert lines[..k + 1][..k] == lines[..k];
    OrdinalCounts(q, s, lines, k);
    NextFooterLine(lines, k + 1, |lines|);
  }

  /** An error on the way to a line is an error of the whole scan. */
  lemma ScanStops(q: Query, s: Progress, lines: seq<Bytes>, k: nat)
    requires k <= |lines|
    ensures ScanLines(q, s, lines[..k]).Err? ==> ScanLines(q, s, lines).Err?
    ensures ScanLines(q, s, lines[..k]).Ok? && ScanLines(q, ScanLines(q, s, lines[..k]).value, lines[k..]).Err? ==>
              ScanLines(q, s, lines).Err?
  {
    assert lines == lines[..k] + lines[k..];
    ScanConcat(q, s, lines[..k], lines[k..]);
  }

  lemma SkipLine(q: Query, s: Progress, lines: seq<Bytes>, k: nat, matches: seq<Hit>, pending: seq<FileTreeEntry>)
    requires AtLine(q, s, lines, k, matches, pending) && k < |lines| && EnoughOrdinals(s, lines)
    requires !IsFooter(lines[k]) ==> !q.lineMatches(lines[k]) || EntryOn(q, lines[k]) == Ok(None)
    ensures AtLine(q, s, lines, k + 1, matches, pending)
  {
    hide Settle, ScanLines, ScanLine;
    ScanNext(q, s, lines, k);
    SettleSkip(q, ScanLines(q, s, lines[..k]).value, lines, k);
  }

  /** Lines that do not match are passed over, footers included. */
  lemma {:induction false} SkipLines(q: Query, s: Progress, lines: seq<Bytes>, k: nat, j: nat,
                                     matches: seq<Hit>, pending: seq<FileTreeEntry>)
    requires AtLine(q, s, lines, k, matches, pending) && k <= j <= |lines| && EnoughOrdinals(s, lines)
    requires forall i | k <= i < j :: !q.lineMatches(lines[i])
    ensures AtLine(q, s, lines, j, matches, pending)
    decreases j - k
  {
    hide AtLine, EnoughOrdinals;
    if k < j {
      SkipLine(q, s, lines, k, matches, pending);
      SkipLines(q, s, lines, k + 1, j, matches, pending);
    }
  }

  /** What an entry line does: wait, be decided by the next footer, or break the scan. */
  lemma TakeLine(q: Query, s: Progress, lines: seq<Bytes>, k: nat, matches: seq<Hit>, pending: seq<FileTreeEntry>,
                 entry: FileTreeEntry)
    requires AtLine(q, s, lines, k, matches, pending) && k < |lines| && EnoughOrdinals(s, lines)
    requires !IsFooter(lines[k]) && q.lineMatches(lines[k]) && EntryOn(q, lines[k]) == Ok(Some(entry))
    ensures NextFooter(lines, k + 1) < |lines| ==> pending == []
    ensures var f := NextFooter(lines, k + 1);
            if f == |lines| then AtLine(q, s, lines, k + 1, matches, pending + [entry])
            else match q.parse(Json(lines[f]))
              case None => ScanLines(q, s, lines).Err?
              case Some(package) =>
                AtLine(q, s, lines, k + 1,
                       if q.Accepts(package, s.ordinal + |FooterLines(lines, k + 1)|) then matches + [(package, entry)] else matches, [])
  {
    hide Settle, ScanLines, ScanLine, NextFooter, EnoughOrdinals;
    ScanNext(q, s, lines, k);
    var before := ScanLines(q, s, lines[..k]).value;
    ReportedOne(q, matches, before.ordinal, entry);
    SettleTake(q, before, lines, k, entry);
    var f := NextFooter(lines, k + 1);
    if f < |lines| && q.parse(Json(lines[f])).None? {
      BrokenFails(q, ScanLine(q, before, lines[k]).value, lines, k + 1);
      ScanStops(q, s, lines, k + 1);
    }
  }

  lemma ReportedOne(q: Query, matches: seq<Hit>, ordinal: nat, entry: FileTreeEntry)
    ensures forall package :: matches + Reported(q, package, ordinal, [entry])
              == if q.Accepts(package, ordinal) then matches + [(package, entry)] else matches
  {
    forall package
      ensures matches + Reported(q, package, ordinal, [entry])
           == if q.Accepts(package, ordinal) then matches + [(package, entry)] else matches
    {
      assert Attach(package, [entry]) == [(package, entry)];
    }
  }

  /** A matching line that is no entry breaks the scan. */
  lemma BadLine(q: Query, s: Progress, lines: seq<Bytes>, k: nat, matches: seq<Hit>, pending: seq<FileTreeEntry>)
    requires AtLine(q, s, lines, k, matches, pending) && k < |lines|
    requires !IsFooter(lines[k]) && q.lineMatches(lines[k]) && EntryOn(q, lines[k]).Err?
    ensures ScanLines(q, s, lines).Err?
  {
    ScanNext(q, s, lines, k);
    ScanStops(q, s, lines, k + 1);
  }

  /** At the end nothing is ahead, so settled progress is progress. */
  lemma AtEnd(q: Query, s: Progress, lines: seq<Bytes>, matches: seq<Hit>, pending: seq<FileTreeEntry>)
    requires AtLine(q, s, lines, |lines|, matches, pending)
    ensures ScanLines(q, s, lines) == Ok(Progress(matches, pending, s.ordinal + |FooterLines(lines, |lines|)|))
  {
    assert lines[..|lines|] == lines;
    OrdinalCounts(q, s, lines, |lines|);
  }

  lemma AtStart(q: Query, s: Progress, lines: seq<Bytes>)
    ensures Settle(q, s, lines, 0).Broken? ==> ScanLines(q, s, lines).Err?
    ensures Settle(q, s, lines, 0).Settled? ==>
              AtLine(q, s, lines, 0, Settle(q, s, lines, 0).matches, Settle(q, s, lines, 0).pending)
  {
    assert lines[0..] == lines && lines[..0] == [];
    if Settle(q, s, lines, 0).Broken? {
      BrokenFails(q, s, lines, 0);
    }
  }

  lemma TooManyFooters(q: Query, s: Progress, lines: seq<Bytes>)
    requires FooterLines(lines, |lines|) != [] && s.ordinal + |FooterLines(lines, |lines|)| > MAX_ORDINAL
    ensures ScanLines(q, s, lines).Err?
  {
    assert lines[..|lines|] == lines;
    if ScanLines(q, s, lines).Ok? {
      OrdinalCounts(q, s, lines, |lines|);
    }
  }
}
