/** The command index: which packages provide a command, with providers interned once each. */
module CommandIndex {
  import opened Wrappers
  import opened Bytes
  import opened Files
  import opened FrcodeStream
  import opened FrameWriter
  import opened SeekTable
  import opened Postings
  import opened BasenameIndex

  const COMMAND_MAGIC: Bytes := [78, 67, 80, 79]
  const PROVIDERS_MAGIC: Bytes := [78, 67, 77, 68]
  const COMMAND_VERSION: U32 := 1
  const MAX_LABEL_BYTES := 0x1_0000
  const MAX_PROVIDER_COUNT := 2_000_000
  const MAX_PROVIDERS_PER_COMMAND := 1_000_000
  const MAX_COMMAND_COUNT := 4_000_000

  /** `/bin/`, `/usr/bin/`, `/sbin/` and `/usr/sbin/`. */
  const BIN_PREFIXES: seq<Bytes> := [
    [47, 98, 105, 110, 47],
    [47, 117, 115, 114, 47, 98, 105, 110, 47],
    [47, 115, 98, 105, 110, 47],
    [47, 117, 115, 114, 47, 115, 98, 105, 110, 47]]

  /** A provider; labels as UTF-8 bytes. */
  datatype Provider = Provider(attr: Bytes, output: Bytes, toplevel: bool)

  datatype CommandError = TooManyProviders | TooManyCommands | LabelTooLong | TableCorrupt | ListUnreadable

  // ---------- which paths are commands ----------

  predicate IsChildOf(path: Bytes, prefix: Bytes) {
    |path| > |prefix| && StartsWith(path, prefix) && SLASH !in path[|prefix|..]
  }

  /** `is_command_candidate`. */
  predicate IsCommandCandidate(path: Bytes) {
    exists i | 0 <= i < |BIN_PREFIXES| :: IsChildOf(path, BIN_PREFIXES[i])
  }

  /** The path is a name without a slash behind the directory. */
  ghost predicate NameIn(path: Bytes, directory: Bytes) {
    exists name: Bytes :: name != [] && 47 !in name && path == directory + name
  }

  lemma NameInIs(path: Bytes, directory: Bytes)
    ensures NameIn(path, directory) <==> IsChildOf(path, directory)
  {
    if IsChildOf(path, directory) {
      assert path == directory + path[|directory|..] && path[|directory|..] != [];
    }
    if name: Bytes :| name != [] && 47 !in name && path == directory + name {
      assert path[..|directory|] == directory && path[|directory|..] == name;
    }
  }

  /** A candidate is a plain name in `/bin/`, `/usr/bin/`, `/sbin/` or `/usr/sbin/`, and that name is its basename. */
  lemma CandidateName(path: Bytes)
    ensures IsCommandCandidate(path) <==>
            || NameIn(path, [47, 98, 105, 110, 47]) || NameIn(path, [47, 117, 115, 114, 47, 98, 105, 110, 47])
            || NameIn(path, [47, 115, 98, 105, 110, 47]) || NameIn(path, [47, 117, 115, 114, 47, 115, 98, 105, 110, 47])
    ensures IsCommandCandidate(path) ==> BasenameOf(path) != [] && SLASH !in BasenameOf(path)
  {
    hide NameIn, IsChildOf;
    AnyDirectory(path);
    NameInIs(path, BIN_PREFIXES[0]);
    NameInIs(path, BIN_PREFIXES[1]);
    NameInIs(path, BIN_PREFIXES[2]);
    NameInIs(path, BIN_PREFIXES[3]);
    if IsCommandCandidate(path) {
      var i :| 0 <= i < |BIN_PREFIXES| && IsChildOf(path, BIN_PREFIXES[i]);
      ChildName(path, i);
    }
  }

  lemma AnyDirectory(path: Bytes)
    ensures IsCommandCandidate(path) <==>
            || IsChildOf(path, BIN_PREFIXES[0]) || IsChildOf(path, BIN_PREFIXES[1])
            || IsChildOf(path, BIN_PREFIXES[2]) || IsChildOf(path, BIN_PREFIXES[3])
  {
    hide IsChildOf;
  }

  lemma ChildName(path: Bytes, i: nat)
    requires i < |BIN_PREFIXES| && IsChildOf(path, BIN_PREFIXES[i])
    ensures BasenameOf(path) != [] && SLASH !in BasenameOf(path)
  {
    PrefixEndsInSlash(i);
    NameBehind(path, |BIN_PREFIXES[i]|);
  }

  lemma PrefixEndsInSlash(i: nat)
    requires i < |BIN_PREFIXES|
    ensures BIN_PREFIXES[i] != [] && BIN_PREFIXES[i][|BIN_PREFIXES[i]| - 1] == SLASH
  {
  }

  // ---------- recording ----------

  function IdsOf(commands: map<Bytes, seq<U32>>, command: Bytes): seq<U32> {
    if command in commands then commands[command] else []
  }

  function IdSetOf(commands: map<Bytes, seq<U32>>, command: Bytes): set<U32> {
    set id | id in IdsOf(commands, command)
  }

  /** Every provider is listed once, and the index finds its place. */
  ghost predicate Interned(providers: seq<Provider>, index: map<Provider, U32>) {
    && |providers| <= U32_LIMIT
    && (forall i, j | 0 <= i < j < |providers| :: providers[i] != providers[j])
    && (forall p :: p in index <==> p in providers)
    && forall p | p in index :: index[p] < |providers| && providers[index[p]] == p
  }

  /** The ids kept for a command are exactly those of the providers recorded for it. */
  ghost predicate Kept(providers: seq<Provider>, commands: map<Bytes, seq<U32>>, log: set<(Bytes, Provider)>) {
    && (forall entry | entry in log :: entry.1 in providers)
    && forall c: Bytes, id: U32 :: KeptFor(providers, commands, log, c, id)
  }

  /** One command and one id. */
  ghost predicate KeptFor(providers: seq<Provider>, commands: map<Bytes, seq<U32>>, log: set<(Bytes, Provider)>, c: Bytes, id: U32) {
    id in IdsOf(commands, c) <==> id < |providers| && (c, providers[id]) in log
  }

  lemma InternNew(providers: seq<Provider>, index: map<Provider, U32>, commands: map<Bytes, seq<U32>>,
                  log: set<(Bytes, Provider)>, p: Provider)
    requires Interned(providers, index) && Kept(providers, commands, log) && p !in index && |providers| < U32_LIMIT
    ensures Interned(providers + [p], index[p := |providers|]) && Kept(providers + [p], commands, log)
  {
    var more := providers + [p];
    forall c: Bytes, id: U32 ensures KeptFor(more, commands, log, c, id) {
      assert KeptFor(providers, commands, log, c, id);
      assert id < |providers| ==> more[id] == providers[id];
      assert id == |providers| ==> more[id] == p;
      assert (c, p) in log ==> (c, p).1 in providers;
    }
  }

  lemma KeepOne(providers: seq<Provider>, index: map<Provider, U32>, commands: map<Bytes, seq<U32>>,
                log: set<(Bytes, Provider)>, c: Bytes, id: U32)
    requires Interned(providers, index) && Kept(providers, commands, log) && id < |providers|
    ensures Kept(providers, commands[c := IdsOf(commands, c) + [id]], log + {(c, providers[id])})
  {
    var after := commands[c := IdsOf(commands, c) + [id]];
    forall d: Bytes, k: U32 ensures KeptFor(providers, after, log + {(c, providers[id])}, d, k) {
      assert KeptFor(providers, commands, log, d, k);
    }
  }

  /** No command is kept without an id. */
  predicate NoneEmpty(commands: map<Bytes, seq<U32>>) {
    forall c | c in commands :: commands[c] != []
  }

  /** What a package adds: its provider for every command among its paths. */
  ghost function Provided(p: Provider, paths: seq<Bytes>): set<(Bytes, Provider)> {
    set path | path in paths && IsCommandCandidate(path) :: (BasenameOf(path), p)
  }

  class CommandBuilder {
    var providers: seq<Provider>
    var providerIndex: map<Provider, U32>
    var commands: map<Bytes, seq<U32>>

    /** Every command recorded together with its provider. */
    ghost var log: set<(Bytes, Provider)>

    ghost predicate Valid()
      reads this
    {
      Interned(providers, providerIndex) && Kept(providers, commands, log) && NoneEmpty(commands)
    }

    constructor ()
      ensures Valid() && log == {} && providers == []
    {
      providers, providerIndex, commands, log := [], map[], map[], {};
    }

    /** The id of a provider: the one it already has, or the next. */
    method ProviderId(p: Provider) returns (r: Result<U32, CommandError>)
      requires Valid()
      modifies this`providers, this`providerIndex
      ensures Valid()
      ensures r.Ok? <==> p in old(providers) || |old(providers)| < U32_LIMIT
      ensures r.Ok? ==> r.value < |providers| && providers[r.value] == p
      ensures providers == if p in old(providers) || r.Err? then old(providers) else old(providers) + [p]
    {
      if p in providerIndex {
        return Ok(providerIndex[p]);
      }
      if |providers| >= U32_LIMIT {
        return Err(TooManyProviders);
      }
      var id: U32 := |providers|;
      InternNew(providers, providerIndex, commands, log, p);
      providers := providers + [p];
      providerIndex := providerIndex[p := id];
      return Ok(id);
    }

    /** Record the commands among the paths of a package for its provider. */
    method RecordPackage(p: Provider, paths: seq<Bytes>) returns (r: Result<U32, CommandError>)
      requires Valid()
      modifies this
      ensures Valid()
      ensures r.Ok? <==> p in old(providers) || |old(providers)| < U32_LIMIT
      ensures r.Ok? ==> r.value < |providers| && providers[r.value] == p && log == old(log) + Provided(p, paths)
      ensures providers == if p in old(providers) || r.Err? then old(providers) else old(providers) + [p]
      ensures r.Err? ==> log == old(log)
    {
      hide IsCommandCandidate, BasenameOf, Interned, Kept;
      r := ProviderId(p);
      if r.Err? {
        return;
      }
      var id := r.value;
      NothingProvided(p, paths);
      ghost var known := providers;
      hide *;
      for n := 0 to |paths|
        invariant Valid() && providers == known && id < |providers| && providers[id] == p
        invariant log == old(log) + Provided(p, paths[..n])
      {
        ProvidedNext(p, paths, n, old(log));
        RecordPath(id, paths[n]);
      }
      assert paths[..|paths|] == paths;
    }

    /** One path: when it is a command, its provider is added to the command's list. */
    method RecordPath(id: U32, path: Bytes)
      requires Valid() && id < |providers|
      modifies this`commands, this`log
      ensures Valid()
      ensures log == if IsCommandCandidate(path) then old(log) + {(BasenameOf(path), providers[id])} else old(log)
    {
      hide IsCommandCandidate, BasenameOf, Interned, Kept;
      if !IsCommandCandidate(path) {
        return;
      }
      CandidateName(path);
      var command := BasenameOf(path);
      if command == [] {
        return;
      }
      KeepOne(providers, providerIndex, commands, log, command, id);
      commands := commands[command := IdsOf(commands, command) + [id]];
      log := log + {(command, providers[id])};
    }
  }

  lemma NothingProvided(p: Provider, paths: seq<Bytes>)
    ensures Provided(p, paths[..0]) == {}
  {
  }

  lemma ProvidedNext(p: Provider, paths: seq<Bytes>, n: nat, log: set<(Bytes, Provider)>)
    requires n < |paths|
    ensures log + Provided(p, paths[..n + 1]) ==
            log + Provided(p, paths[..n]) + if IsCommandCandidate(paths[n]) then {(BasenameOf(paths[n]), p)} else {}
  {
    hide IsCommandCandidate, BasenameOf;
    assert paths[..n + 1] == paths[..n] + [paths[n]];
    assert forall path :: path in paths[..n + 1] <==> path in paths[..n] || path == paths[n];
    var one: set<(Bytes, Provider)> := if IsCommandCandidate(paths[n]) then {(BasenameOf(paths[n]), p)} else {};
    assert Provided(p, paths[..n + 1]) == Provided(p, paths[..n]) + one;
  }

  // ---------- the provider table ----------

  function Flag(toplevel: bool): Bytes {
    [if toplevel then 1 else 0]
  }

  /** Both labels behind their lengths, and the flag. */
  function PrintedProvider(p: Provider): Bytes
    requires |p.attr| <= MAX_LABEL_BYTES && |p.output| <= MAX_LABEL_BYTES
  {
    U32Le(|p.attr|) + p.attr + (U32Le(|p.output|) + p.output + Flag(p.toplevel))
  }

  predicate ShortLabels(providers: seq<Provider>) {
    forall p | p in providers :: |p.attr| <= MAX_LABEL_BYTES && |p.output| <= MAX_LABEL_BYTES
  }

  function Rows(providers: seq<Provider>): (rows: seq<Bytes>)
    requires ShortLabels(providers)
    ensures |rows| == |providers|
  {
    seq(|providers|, i requires 0 <= i < |providers| => assert providers[i] in providers; PrintedProvider(providers[i]))
  }

  function ProvidersHeader(count: U32): (head: Bytes)
    ensures |head| == 12
  {
    PROVIDERS_MAGIC + U32Le(COMMAND_VERSION) + U32Le(count)
  }

  function ProviderFile(providers: seq<Provider>): Bytes
    requires ShortLabels(providers) && |providers| < U32_LIMIT
  {
    ProvidersHeader(|providers|) + Concat(Rows(providers))
  }

  /** `write_provider_table`. */
  method WriteProviders(providers: seq<Provider>) returns (r: Result<Bytes, CommandError>)
    ensures r.Ok? <==> |providers| < U32_LIMIT && ShortLabels(providers)
    ensures r.Ok? ==> r.value == ProviderFile(providers)
  {
    if |providers| >= U32_LIMIT {
      return Err(TooManyProviders);
    }
    var head := ProvidersHeader(|providers|);
    var out := head;
    assert providers[..0] == [] && head + [] == head;
    hide U32Le, PrintedProvider;
    for i := 0 to |providers|
      invariant ShortLabels(providers[..i]) && out == head + Concat(Rows(providers[..i]))
    {
      var p := providers[i];
      assert p in providers && providers[..i + 1] == providers[..i] + [p];
      if |p.attr| > MAX_LABEL_BYTES || |p.output| > MAX_LABEL_BYTES {
        return Err(LabelTooLong);
      }
      assert Rows(providers[..i + 1])[..i] == Rows(providers[..i]);
      Assoc(head, Concat(Rows(providers[..i])), PrintedProvider(p));
      out := out + PrintedProvider(p);
    }
    assert providers[..|providers|] == providers;
    return Ok(out);
  }

  /** Where the labels of a provider lie in the file, and its flag. */
  datatype LabelRanges = LabelRanges(attrStart: nat, attrEnd: nat, outputStart: nat, outputEnd: nat, toplevel: bool)

  predicate InFile(bytes: Bytes, r: LabelRanges) {
    r.attrStart <= r.attrEnd <= |bytes| && r.outputStart <= r.outputEnd <= |bytes|
  }

  function At(bytes: Bytes, r: LabelRanges): Provider
    requires InFile(bytes, r)
  {
    Provider(bytes[r.attrStart..r.attrEnd], bytes[r.outputStart..r.outputEnd], r.toplevel)
  }

  /** One turn of `parse_provider_ranges`; on any bytes it stays within them, and takes exactly a printed provider. */
  method ParseRow(bytes: Bytes, pos: nat, ghost want: Option<Provider>, ghost rest: Bytes)
    returns (r: Result<LabelRanges, CommandError>, next: nat)
    requires want.Some? ==> ShortLabels([want.value]) && pos <= |bytes| && bytes[pos..] == PrintedProvider(want.value) + rest
    ensures r.Ok? ==> InFile(bytes, r.value) && pos < next <= |bytes| && ShortLabels([At(bytes, r.value)])
                      && bytes[pos..next] == PrintedProvider(At(bytes, r.value))
    ensures want.Some? ==> r.Ok? && At(bytes, r.value) == want.value && bytes[next..] == rest
  {
    hide ReadU32Le, U32Le, PrintedProvider, ShortLabels, Flag;
    if want.Some? {
      WantedRow(bytes, pos, want.value, rest);
    }
    next := pos;
    var attrLen := ReadU32Le(bytes, pos);
    if attrLen.None? || attrLen.value > MAX_LABEL_BYTES {
      return Err(TableCorrupt), next;
    }
    var attrStart := pos + 4;
    var attrEnd: nat := attrStart + attrLen.value;
    if attrEnd > |bytes| {
      return Err(TableCorrupt), next;
    }
    var outputLen := ReadU32Le(bytes, attrEnd);
    if outputLen.None? || outputLen.value > MAX_LABEL_BYTES {
      return Err(TableCorrupt), next;
    }
    var outputStart := attrEnd + 4;
    var outputEnd: nat := outputStart + outputLen.value;
    if outputEnd + 1 > |bytes| || bytes[outputEnd] > 1 {
      return Err(TableCorrupt), next;
    }
    next := outputEnd + 1;
    r := Ok(LabelRanges(attrStart, attrEnd, outputStart, outputEnd, bytes[outputEnd] == 1));
    RowStands(bytes, pos, r.value);
  }

  /** What reads as two labels and a flag is a printed provider. */
  lemma RowStands(bytes: Bytes, pos: nat, r: LabelRanges)
    requires InFile(bytes, r) && r.attrStart == pos + 4 && r.outputStart == r.attrEnd + 4 && r.outputEnd < |bytes|
    requires r.attrEnd - r.attrStart <= MAX_LABEL_BYTES && r.outputEnd - r.outputStart <= MAX_LABEL_BYTES
    requires ReadU32Le(bytes, pos) == Some(r.attrEnd - r.attrStart)
    requires ReadU32Le(bytes, r.attrEnd) == Some(r.outputEnd - r.outputStart)
    requires bytes[r.outputEnd] <= 1 && (r.toplevel <==> bytes[r.outputEnd] == 1)
    ensures ShortLabels([At(bytes, r)]) && bytes[pos..r.outputEnd + 1] == PrintedProvider(At(bytes, r))
  {
    hide ReadU32Le, U32Le;
    WordBytes(bytes, pos, r.attrEnd - r.attrStart);
    WordBytes(bytes, r.attrEnd, r.outputEnd - r.outputStart);
    var p := At(bytes, r);
    var end := r.outputEnd + 1;
    assert bytes[pos..r.attrEnd] == bytes[pos..pos + 4] + bytes[pos + 4..r.attrEnd];
    assert bytes[r.attrEnd..end] == bytes[r.attrEnd..r.outputStart] + bytes[r.outputStart..r.outputEnd] + [bytes[r.outputEnd]];
    assert bytes[pos..end] == bytes[pos..r.attrEnd] + bytes[r.attrEnd..end];
    assert Flag(p.toplevel) == [bytes[r.outputEnd]];
  }

  /** A printed provider reads as two labels and a flag. */
  lemma WantedRow(bytes: Bytes, pos: nat, p: Provider, rest: Bytes)
    requires ShortLabels([p]) && pos <= |bytes| && bytes[pos..] == PrintedProvider(p) + rest
    ensures |p.attr| <= MAX_LABEL_BYTES && |p.output| <= MAX_LABEL_BYTES
    ensures ReadU32Le(bytes, pos) == Some(|p.attr|)
    ensures var attrEnd := pos + 4 + |p.attr|;
            var outputEnd := attrEnd + 4 + |p.output|;
            && outputEnd < |bytes| && ReadU32Le(bytes, attrEnd) == Some(|p.output|)
            && bytes[pos + 4..attrEnd] == p.attr && bytes[attrEnd + 4..outputEnd] == p.output
            && bytes[outputEnd] <= 1 && (p.toplevel <==> bytes[outputEnd] == 1) && bytes[outputEnd + 1..] == rest
  {
    hide ReadU32Le, PrintedProvider;
    assert p in [p];
    RowAt(bytes, pos, p, rest);
  }

  lemma RowAt(bytes: Bytes, pos: nat, p: Provider, rest: Bytes)
    requires ShortLabels([p]) && pos <= |bytes| && |p.attr| <= MAX_LABEL_BYTES && |p.output| <= MAX_LABEL_BYTES
    requires bytes[pos..] == PrintedProvider(p) + rest
    ensures ReadU32Le(bytes, pos) == Some(|p.attr|)
    ensures var attrEnd := pos + 4 + |p.attr|;
            var outputEnd := attrEnd + 4 + |p.output|;
            && outputEnd < |bytes| && ReadU32Le(bytes, attrEnd) == Some(|p.output|)
            && bytes[pos + 4..attrEnd] == p.attr && bytes[attrEnd + 4..outputEnd] == p.output
            && bytes[outputEnd] == Flag(p.toplevel)[0] && bytes[outputEnd + 1..] == rest
  {
    hide ReadU32Le, U32Le;
    var attrEnd := pos + 4 + |p.attr|;
    var behind := U32Le(|p.output|) + p.output + Flag(p.toplevel);
    Assoc(U32Le(|p.attr|) + p.attr, behind, rest);
    LabelAt(bytes, pos, p.attr, behind + rest);
    Assoc(U32Le(|p.output|) + p.output, Flag(p.toplevel), rest);
    LabelAt(bytes, attrEnd, p.output, Flag(p.toplevel) + rest);
    FlagAt(bytes, attrEnd + 4 + |p.output|, Flag(p.toplevel)[0], rest);
  }

  lemma FlagAt(bytes: Bytes, at: nat, flag: Byte, rest: Bytes)
    requires at <= |bytes| && bytes[at..] == [flag] + rest
    ensures at < |bytes| && bytes[at] == flag && bytes[at + 1..] == rest
  {
    var tail := bytes[at..];
    assert tail[0] == bytes[at] && tail[1..] == bytes[at + 1..];
  }

  /** The ranges give back the providers. */
  ghost predicate Ranged(bytes: Bytes, ranges: seq<LabelRanges>, providers: seq<Provider>) {
    && |ranges| == |providers|
    && forall i | 0 <= i < |ranges| :: InFile(bytes, ranges[i]) && At(bytes, ranges[i]) == providers[i]
  }

  lemma RowsFrom(providers: seq<Provider>, i: nat)
    requires ShortLabels(providers) && i < |providers|
    ensures ShortLabels(providers[i..]) && ShortLabels(providers[i + 1..]) && ShortLabels([providers[i]])
    ensures Concat(Rows(providers[i..])) == PrintedProvider(providers[i]) + Concat(Rows(providers[i + 1..]))
  {
    hide PrintedProvider;
    assert providers[i] in providers;
    assert Rows(providers[i..]) == [PrintedProvider(providers[i])] + Rows(providers[i + 1..]);
    ConcatAppend([PrintedProvider(providers[i])], Rows(providers[i + 1..]));
    var one := [PrintedProvider(providers[i])];
    assert one[..0] == [] && Concat(one[..0]) + one[0] == one[0];
  }

  lemma RowsNext(providers: seq<Provider>, p: Provider)
    requires ShortLabels(providers) && ShortLabels([p])
    ensures ShortLabels(providers + [p])
    ensures Concat(Rows(providers + [p])) == Concat(Rows(providers)) + PrintedProvider(p)
  {
    hide PrintedProvider;
    assert p in [p];
    assert Rows(providers + [p])[..|providers|] == Rows(providers);
  }

  lemma {:induction false} RowsLong(providers: seq<Provider>)
    requires ShortLabels(providers)
    ensures |Concat(Rows(providers))| >= 4 * |providers|
  {
    hide Concat, Rows, U32Le;
    if providers != [] {
      RowsFrom(providers, 0);
      assert providers[0..] == providers;
      RowsLong(providers[1..]);
    }
  }

  /** The file starts with a printed table of these providers, which is within the caps. */
  ghost predicate IsProviderFile(bytes: Bytes, providers: seq<Provider>) {
    |providers| <= MAX_PROVIDER_COUNT && ShortLabels(providers) && StartsWith(bytes, ProviderFile(providers))
  }

  /** That is so when the header says how many there are, and their rows follow. */
  lemma TableIs(bytes: Bytes, providers: seq<Provider>)
    requires ShortLabels(providers) && |providers| < U32_LIMIT
    ensures StartsWith(bytes, ProviderFile(providers)) <==>
            && |bytes| >= 12 && bytes[..4] == PROVIDERS_MAGIC
            && ReadU32Le(bytes, 4) == Some(COMMAND_VERSION) && ReadU32Le(bytes, 8) == Some(|providers|)
            && StartsWith(bytes[12..], Concat(Rows(providers)))
  {
    hide ReadU32Le, U32Le, Concat, Rows, StartsWith;
    HeaderWords(bytes, PROVIDERS_MAGIC, COMMAND_VERSION, |providers|);
    HeadThenRest(bytes, ProvidersHeader(|providers|), Concat(Rows(providers)));
  }

  /** Rows that begin here are a provider and the other rows. */
  lemma RowsBehind(bytes: Bytes, pos: nat, providers: seq<Provider>) returns (rest: Bytes)
    requires pos <= |bytes| && ShortLabels(providers) && providers != [] && StartsWith(bytes[pos..], Concat(Rows(providers)))
    ensures ShortLabels([providers[0]]) && ShortLabels(providers[1..])
    ensures bytes[pos..] == PrintedProvider(providers[0]) + rest && StartsWith(rest, Concat(Rows(providers[1..])))
  {
    hide PrintedProvider, Rows, Concat;
    RowsFrom(providers, 0);
    assert providers[0..] == providers;
    var row := PrintedProvider(providers[0]);
    HeadThenRest(bytes[pos..], row, Concat(Rows(providers[1..])));
    rest := bytes[pos..][|row|..];
    assert bytes[pos..] == bytes[pos..][..|row|] + rest;
  }

  /** The same bytes hold only one list of providers of a given length. */
  lemma {:induction false} RowsUnique(bytes: Bytes, pos: nat, a: seq<Provider>, b: seq<Provider>)
    requires pos <= |bytes| && ShortLabels(a) && ShortLabels(b) && |a| == |b|
    requires StartsWith(bytes[pos..], Concat(Rows(a))) && StartsWith(bytes[pos..], Concat(Rows(b)))
    ensures a == b
    decreases |a|
  {
    hide PrintedProvider, Rows, Concat, ReadU32Le, StartsWith;
    if a != [] {
      var restA := RowsBehind(bytes, pos, a);
      var restB := RowsBehind(bytes, pos, b);
      OneRow(bytes, pos, a[0], restA, b[0], restB);
      var next := |bytes| - |restA|;
      assert bytes[next..] == restA;
      RowsUnique(bytes, next, a[1..], b[1..]);
      assert a == [a[0]] + a[1..] && b == [b[0]] + b[1..];
    }
  }

  lemma OneRow(bytes: Bytes, pos: nat, p: Provider, restP: Bytes, q: Provider, restQ: Bytes)
    requires pos <= |bytes| && ShortLabels([p]) && ShortLabels([q])
    requires bytes[pos..] == PrintedProvider(p) + restP && bytes[pos..] == PrintedProvider(q) + restQ
    ensures p == q && restP == restQ && |restP| <= |bytes| && bytes[|bytes| - |restP|..] == restP
  {
    hide ReadU32Le, PrintedProvider, ShortLabels;
    WantedRow(bytes, pos, p, restP);
    WantedRow(bytes, pos, q, restQ);
  }

  /** No file starts with two different tables. */
  lemma ProvidersUnique(bytes: Bytes, a: seq<Provider>, b: seq<Provider>)
    requires IsProviderFile(bytes, a) && IsProviderFile(bytes, b)
    ensures a == b
  {
    hide ProviderFile, ShortLabels, StartsWith, Rows, Concat, ReadU32Le;
    TableIs(bytes, a);
    TableIs(bytes, b);
    RowsUnique(bytes, 12, a, b);
  }

  /** What the rows up to a position hold, and where the labels stand. */
  ghost predicate TableRead(bytes: Bytes, pos: nat, ranges: seq<LabelRanges>, read: seq<Provider>) {
    && 12 <= pos <= |bytes| && ShortLabels(read) && Ranged(bytes, ranges, read)
    && bytes[12..pos] == Concat(Rows(read))
  }

  /** These providers are still to come. */
  ghost predicate Ahead(bytes: Bytes, pos: nat, want: Option<seq<Provider>>, left: nat) {
    want.Some? ==> |want.value| == left && ShortLabels(want.value) && pos <= |bytes| && StartsWith(bytes[pos..], Concat(Rows(want.value)))
  }

  lemma TableGrows(bytes: Bytes, pos: nat, ranges: seq<LabelRanges>, read: seq<Provider>, range: LabelRanges, next: nat)
    requires TableRead(bytes, pos, ranges, read) && InFile(bytes, range) && pos < next <= |bytes|
    requires ShortLabels([At(bytes, range)]) && bytes[pos..next] == PrintedProvider(At(bytes, range))
    ensures TableRead(bytes, next, ranges + [range], read + [At(bytes, range)])
  {
    hide PrintedProvider, Rows, Concat;
    RowsNext(read, At(bytes, range));
    assert bytes[12..next] == bytes[12..pos] + bytes[pos..next];
  }

  /** One more row. */
  method ParseTableRow(bytes: Bytes, pos: nat, ghost ranges: seq<LabelRanges>, ghost read: seq<Provider>,
                       ghost want: Option<seq<Provider>>, ghost left: nat)
    returns (r: Result<LabelRanges, CommandError>, next: nat, ghost after: Option<seq<Provider>>)
    requires TableRead(bytes, pos, ranges, read) && left > 0 && Ahead(bytes, pos, want, left)
    ensures r.Ok? ==> InFile(bytes, r.value) && TableRead(bytes, next, ranges + [r.value], read + [At(bytes, r.value)])
    ensures r.Ok? ==> Ahead(bytes, next, after, left - 1) && (want.Some? <==> after.Some?)
    ensures want.Some? ==> r.Ok?
  {
    hide PrintedProvider, Rows, Concat, StartsWith, TableRead;
    ghost var row, rest := None, [];
    after := None;
    if want.Some? {
      rest := RowsBehind(bytes, pos, want.value);
      row, after := Some(want.value[0]), Some(want.value[1..]);
    }
    r, next := ParseRow(bytes, pos, row, rest);
    if r.Ok? {
      TableGrows(bytes, pos, ranges, read, r.value, next);
    }
  }

  /** The rows, one behind the other: what is read is what stands there, and what stands there is read. */
  method ParseRows(bytes: Bytes, count: nat, ghost want: Option<seq<Provider>>)
    returns (r: Result<seq<LabelRanges>, CommandError>, ghost read: seq<Provider>)
    requires |bytes| >= 12 && Ahead(bytes, 12, want, count)
    ensures r.Ok? ==> |read| == count && ShortLabels(read) && Ranged(bytes, r.value, read) && StartsWith(bytes[12..], Concat(Rows(read)))
    ensures want.Some? ==> r.Ok?
  {
    var ranges: seq<LabelRanges> := [];
    var pos: nat := 12;
    ghost var left := want;
    read := [];
    NothingIsRead(bytes);
    hide *;
    for i := 0 to count
      invariant |ranges| == |read| == i && TableRead(bytes, pos, ranges, read)
      invariant Ahead(bytes, pos, left, count - i) && (want.Some? <==> left.Some?)
    {
      var row, next;
      ghost var after;
      row, next, after := ParseTableRow(bytes, pos, ranges, read, left, count - i);
      if row.Err? {
        return Err(row.error), read;
      }
      ranges, read := ranges + [row.value], read + [At(bytes, row.value)];
      pos, left := next, after;
    }
    TableIsRead(bytes, pos, ranges, read);
    return Ok(ranges), read;
  }

  lemma NothingIsRead(bytes: Bytes)
    requires |bytes| >= 12
    ensures TableRead(bytes, 12, [], [])
  {
  }

  lemma TableIsRead(bytes: Bytes, pos: nat, ranges: seq<LabelRanges>, read: seq<Provider>)
    requires TableRead(bytes, pos, ranges, read)
    ensures |bytes| >= 12 && ShortLabels(read) && Ranged(bytes, ranges, read) && StartsWith(bytes[12..], Concat(Rows(read)))
  {
    hide Concat, Rows;
    assert bytes[12..][..pos - 12] == bytes[12..pos];
  }

  /** Which table the file starts with, if it starts with one. */
  lemma FindTable(bytes: Bytes) returns (want: Option<seq<Provider>>)
    ensures want.Some? <==> exists providers :: IsProviderFile(bytes, providers)
    ensures want.Some? ==> IsProviderFile(bytes, want.value) && Ahead(bytes, 12, want, |want.value|)
    ensures want.Some? ==> |bytes| >= 12 && bytes[..4] == PROVIDERS_MAGIC && ReadU32Le(bytes, 4) == Some(COMMAND_VERSION)
                           && ReadU32Le(bytes, 8) == Some(|want.value|)
                           && |want.value| * 4 <= |bytes| - 12 && |want.value| <= MAX_PROVIDER_COUNT
  {
    hide ProviderFile, StartsWith, Rows, Concat, ReadU32Le, ShortLabels;
    if providers :| IsProviderFile(bytes, providers) {
      TableIs(bytes, providers);
      RowsLong(providers);
      LongEnough(bytes, Concat(Rows(providers)));
      want := Some(providers);
    } else {
      want := None;
    }
  }

  lemma LongEnough(bytes: Bytes, rows: Bytes)
    requires |bytes| >= 12 && StartsWith(bytes[12..], rows)
    ensures |rows| <= |bytes| - 12
  {
  }

  /**
   * `parse_provider_ranges`: it accepts exactly the files that start with a printed table within the caps,
   * and finds where the labels of these providers stand. What follows the table is ignored.
   */
  method ParseProviders(bytes: Bytes) returns (r: Result<seq<LabelRanges>, CommandError>)
    ensures r.Ok? <==> exists providers :: IsProviderFile(bytes, providers)
    ensures r.Ok? ==> forall providers | IsProviderFile(bytes, providers) :: Ranged(bytes, r.value, providers)
  {
    ghost var want := FindTable(bytes);
    hide ReadU32Le, ProviderFile, StartsWith, Rows, Concat, IsProviderFile, Ranged;
    if |bytes| < 4 || bytes[..4] != PROVIDERS_MAGIC {
      return Err(TableCorrupt);
    }
    if ReadU32Le(bytes, 4) != Some(COMMAND_VERSION) {
      return Err(TableCorrupt);
    }
    var counted := ReadU32Le(bytes, 8);
    if counted.None? {
      return Err(TableCorrupt);
    }
    var count: nat := counted.value;
    if count > MAX_PROVIDER_COUNT || count * 4 > |bytes| - 12 {
      return Err(TooManyProviders);
    }
    ghost var read;
    r, read := ParseRows(bytes, count, want);
    if r.Ok? {
      TableFound(bytes, read, r.value);
    }
  }

  lemma TableFound(bytes: Bytes, read: seq<Provider>, ranges: seq<LabelRanges>)
    requires |bytes| >= 12 && bytes[..4] == PROVIDERS_MAGIC && ReadU32Le(bytes, 4) == Some(COMMAND_VERSION)
    requires ReadU32Le(bytes, 8) == Some(|read|) && |read| <= MAX_PROVIDER_COUNT && ShortLabels(read)
    requires StartsWith(bytes[12..], Concat(Rows(read))) && Ranged(bytes, ranges, read)
    ensures IsProviderFile(bytes, read)
    ensures forall providers | IsProviderFile(bytes, providers) :: Ranged(bytes, ranges, providers)
  {
    hide ReadU32Le, ProviderFile, StartsWith, Rows, Concat, Ranged, ShortLabels;
    TableIs(bytes, read);
    forall providers | IsProviderFile(bytes, providers) ensures providers == read {
      ProvidersUnique(bytes, providers, read);
    }
  }

  // ---------- lookups ----------

  /** The posting table: for every command the ids recorded, each once. */
  function IdSets(commands: map<Bytes, seq<U32>>): map<Bytes, set<U32>> {
    map c | c in commands :: set id | id in commands[c]
  }

  /** `write_sidecars`: the postings, with repeated ids dropped, and the provider table. */
  method WriteSidecars(builder: CommandBuilder) returns (r: Result<(Index, Bytes), CommandError>)
    ensures r.Ok? <==> |builder.commands| <= MAX_COMMAND_COUNT && |builder.providers| < U32_LIMIT && ShortLabels(builder.providers)
                       && forall c | c in IdSets(builder.commands) :: |IdSets(builder.commands)[c]| < U32_LIMIT
    ensures r.Ok? ==> StandsFor(r.value.0, IdSets(builder.commands))
    ensures r.Ok? ==> |builder.providers| < U32_LIMIT && ShortLabels(builder.providers)
                      && r.value.1 == ProviderFile(builder.providers)
  {
    if |builder.commands| > MAX_COMMAND_COUNT {
      return Err(TooManyCommands);
    }
    var table := WriteProviders(builder.providers);
    if table.Err? {
      return Err(table.error);
    }
    var postings := WritePostings(IdSets(builder.commands), COMMAND_MAGIC, COMMAND_VERSION);
    if postings.Err? {
      return Err(TooManyProviders);
    }
    return Ok((postings.value, table.value));
  }

  /** The providers found are those recorded for the command, each once, in the order of their first registration. */
  ghost predicate Answers(found: seq<Provider>, ids: seq<U32>, providers: seq<Provider>, command: Bytes, log: set<(Bytes, Provider)>) {
    && |found| == |ids| && Ascending(ids)
    && (forall n | 0 <= n < |ids| :: ids[n] < |providers| && found[n] == providers[ids[n]])
    && forall p :: p in found <==> (command, p) in log
  }

  lemma AnswersExactly(found: seq<Provider>, ids: seq<U32>, providers: seq<Provider>, index: map<Provider, U32>,
                       commands: map<Bytes, seq<U32>>, command: Bytes, log: set<(Bytes, Provider)>)
    requires Interned(providers, index) && Kept(providers, commands, log)
    requires Ascending(ids) && forall id: U32 :: id in ids <==> id in IdsOf(commands, command)
    requires |found| == |ids| && forall n | 0 <= n < |ids| :: ids[n] < |providers| && found[n] == providers[ids[n]]
    ensures Answers(found, ids, providers, command, log)
    ensures forall i, j | 0 <= i < j < |found| :: found[i] != found[j]
  {
    forall p ensures p in found <==> (command, p) in log {
      if p in found {
        var n :| 0 <= n < |found| && found[n] == p;
        assert ids[n] in ids && KeptFor(providers, commands, log, command, ids[n]);
      }
      if (command, p) in log {
        assert (command, p).1 in providers && p in index;
        var id := index[p];
        assert KeptFor(providers, commands, log, command, id);
        assert id in IdsOf(commands, command) && id in ids;
        var n :| 0 <= n < |ids| && ids[n] == id;
        assert found[n] == p;
      }
    }
  }

  /**
   * `lookup_command`: exactly the providers that some package recorded for the command, each of them
   * once, also when several packages share a provider, and none for an unknown command.
   */
  method LookupCommand(index: Index, bytes: Bytes, ranges: seq<LabelRanges>, command: Bytes,
                       ghost providers: seq<Provider>, ghost providerIndex: map<Provider, U32>,
                       ghost commands: map<Bytes, seq<U32>>, ghost log: set<(Bytes, Provider)>)
    returns (r: Result<seq<Provider>, CommandError>)
    requires StandsFor(index, IdSets(commands)) && Ranged(bytes, ranges, providers)
    requires Interned(providers, providerIndex) && Kept(providers, commands, log)
    ensures r.Ok? ==> (forall p :: p in r.value <==> (command, p) in log)
                      && forall i, j | 0 <= i < j < |r.value| :: r.value[i] != r.value[j]
    ensures r.Ok? <==> |IdSetOf(commands, command)| <= MAX_PROVIDERS_PER_COMMAND
  {
    SetsOf(index, commands, command);
    hide Interned, Kept, StandsFor, Answers, IdSets, IdsOf, Ranged, Ascending;
    if command !in index.cookies {
      NothingAscending();
      AnswersExactly([], [], providers, providerIndex, commands, command, log);
      AnswersSay([], [], providers, command, log);
      return Ok([]);
    }
    ghost var sets := IdSets(commands);
    var ids := ListOf(index, command, MAX_PROVIDERS_PER_COMMAND, sets);
    if ids.Err? {
      return Err(ListUnreadable);
    }
    KnownIds(ids.value, providers, commands, command, log);
    var found := ProvidersAt(bytes, ranges, ids.value, providers);
    AnswersExactly(found, ids.value, providers, providerIndex, commands, command, log);
    AnswersSay(found, ids.value, providers, command, log);
    return Ok(found);
  }

  lemma NothingAscending()
    ensures Ascending([])
  {
  }

  lemma AnswersSay(found: seq<Provider>, ids: seq<U32>, providers: seq<Provider>, command: Bytes, log: set<(Bytes, Provider)>)
    requires Answers(found, ids, providers, command, log)
    ensures forall p :: p in found <==> (command, p) in log
  {
  }

  lemma SetsOf(index: Index, commands: map<Bytes, seq<U32>>, command: Bytes)
    requires StandsFor(index, IdSets(commands))
    ensures command in index.cookies <==> command in IdSets(commands)
    ensures command !in index.cookies ==> IdsOf(commands, command) == [] && IdSetOf(commands, command) == {}
    ensures command in index.cookies ==> IdSets(commands)[command] == IdSetOf(commands, command)
  {
    assert index.cookies.Keys == IdSets(commands).Keys;
  }

  /** The providers at these ids. */
  method ProvidersAt(bytes: Bytes, ranges: seq<LabelRanges>, ids: seq<U32>, ghost providers: seq<Provider>) returns (found: seq<Provider>)
    requires Ranged(bytes, ranges, providers) && forall n | 0 <= n < |ids| :: ids[n] < |providers|
    ensures |found| == |ids| && forall n | 0 <= n < |ids| :: found[n] == providers[ids[n]]
  {
    found := [];
    for n := 0 to |ids|
      invariant |found| == n && forall k | 0 <= k < n :: found[k] == providers[ids[k]]
    {
      found := found + [At(bytes, ranges[ids[n]])];
    }
  }

  lemma KnownId(id: U32, providers: seq<Provider>, commands: map<Bytes, seq<U32>>, command: Bytes, log: set<(Bytes, Provider)>)
    requires Kept(providers, commands, log) && id in IdsOf(commands, command)
    ensures id < |providers|
  {
    assert KeptFor(providers, commands, log, command, id);
  }

  lemma KnownIds(ids: seq<U32>, providers: seq<Provider>, commands: map<Bytes, seq<U32>>, command: Bytes, log: set<(Bytes, Provider)>)
    requires Kept(providers, commands, log) && forall id | id in ids :: id in IdsOf(commands, command)
    ensures forall n | 0 <= n < |ids| :: ids[n] < |providers|
  {
    hide Kept, IdsOf;
    forall n | 0 <= n < |ids| ensures ids[n] < |providers| {
      assert ids[n] in ids;
      KnownId(ids[n], providers, commands, command, log);
    }
  }

  // ---------- the whole way ----------

  /** Some package with this provider has a file that is this command. */
  ghost predicate Provides(packages: seq<(Provider, seq<Bytes>)>, p: Provider, command: Bytes) {
    exists i, path :: 0 <= i < |packages| && packages[i].0 == p && path in packages[i].1 && IsCommandOf(path, command)
  }

  predicate IsCommandOf(path: Bytes, command: Bytes) {
    IsCommandCandidate(path) && BasenameOf(path) == command
  }

  /** All that is recorded for these packages. */
  ghost function Recorded(packages: seq<(Provider, seq<Bytes>)>): set<(Bytes, Provider)> {
    if packages == [] then {}
    else var n := |packages| - 1; Recorded(packages[..n]) + Provided(packages[n].0, packages[n].1)
  }

  lemma {:induction false} RecordedMeans(packages: seq<(Provider, seq<Bytes>)>, p: Provider, command: Bytes)
    ensures (command, p) in Recorded(packages) <==> Provides(packages, p, command)
  {
    hide Provided, IsCommandOf;
    if packages != [] {
      var n := |packages| - 1;
      RecordedMeans(packages[..n], p, command);
      ProvidedMeans(packages[n].0, packages[n].1, p, command);
      if path :| packages[n].0 == p && path in packages[n].1 && IsCommandOf(path, command) {
        assert Provides(packages, p, command);
      }
      if i, path :| 0 <= i < n && packages[..n][i].0 == p && path in packages[..n][i].1 && IsCommandOf(path, command) {
        assert packages[i] == packages[..n][i];
      }
      if i, path :| 0 <= i < |packages| && packages[i].0 == p && path in packages[i].1 && IsCommandOf(path, command) {
        assert i < n ==> packages[..n][i] == packages[i];
      }
    }
  }

  lemma ProvidedMeans(q: Provider, paths: seq<Bytes>, p: Provider, command: Bytes)
    ensures (command, p) in Provided(q, paths) <==> q == p && exists path :: path in paths && IsCommandOf(path, command)
  {
    hide IsCommandCandidate, BasenameOf;
  }

  /** The providers of these packages, the commands that they have, and the providers of one command. */
  ghost function ProvidersOf(packages: seq<(Provider, seq<Bytes>)>): set<Provider> {
    set i | 0 <= i < |packages| :: packages[i].0
  }

  ghost function CommandsOf(log: set<(Bytes, Provider)>): set<Bytes> {
    set entry | entry in log :: entry.0
  }

  ghost function ProvidersFor(log: set<(Bytes, Provider)>, command: Bytes): set<Provider> {
    set entry | entry in log && entry.0 == command :: entry.1
  }

  /** The caps of the format, and that of a lookup. */
  ghost predicate WithinCaps(packages: seq<(Provider, seq<Bytes>)>, command: Bytes) {
    && |ProvidersOf(packages)| <= MAX_PROVIDER_COUNT && |CommandsOf(Recorded(packages))| <= MAX_COMMAND_COUNT
    && (forall p | p in ProvidersOf(packages) :: |p.attr| <= MAX_LABEL_BYTES && |p.output| <= MAX_LABEL_BYTES)
    && |ProvidersFor(Recorded(packages), command)| <= MAX_PROVIDERS_PER_COMMAND
  }

  /** Different providers are counted once each. */
  lemma {:induction false} DistinctProviders(providers: seq<Provider>)
    requires forall i, j | 0 <= i < j < |providers| :: providers[i] != providers[j]
    ensures |AllOf(providers)| == |providers|
  {
    if providers != [] {
      var n := |providers| - 1;
      DistinctProviders(providers[..n]);
      assert providers == providers[..n] + [providers[n]];
      assert AllOf(providers) == AllOf(providers[..n]) + {providers[n]};
    }
  }

  ghost function ProvidersWith(ids: set<U32>, providers: seq<Provider>): set<Provider>
    requires forall id | id in ids :: id < |providers|
  {
    set id | id in ids :: providers[id]
  }

  /** Different ids stand for different providers. */
  lemma {:induction false} CountIds(ids: set<U32>, providers: seq<Provider>)
    requires forall id | id in ids :: id < |providers|
    requires forall i, j | 0 <= i < j < |providers| :: providers[i] != providers[j]
    ensures |ProvidersWith(ids, providers)| == |ids|
    decreases |ids|
  {
    if ids != {} {
      var last :| last in ids;
      var rest := ids - {last};
      CountIds(rest, providers);
      var some := ProvidersWith(rest, providers);
      assert providers[last] !in some;
      assert ProvidersWith(ids, providers) == some + {providers[last]};
    }
  }

  /** What the caps are about is what a builder holds. */
  lemma CountsAgree(providers: seq<Provider>, index: map<Provider, U32>, commands: map<Bytes, seq<U32>>,
                    log: set<(Bytes, Provider)>, command: Bytes)
    requires Interned(providers, index) && Kept(providers, commands, log) && NoneEmpty(commands)
    ensures |AllOf(providers)| == |providers| && |CommandsOf(log)| == |commands|
    ensures |ProvidersFor(log, command)| == |IdSetOf(commands, command)|
  {
    hide Kept, IdSetOf, CommandsOf, ProvidersFor, ProvidersWith, AllOf;
    DistinctProviders(providers);
    CommandKeys(providers, index, commands, log);
    assert CommandsOf(log) == commands.Keys;
    IdsKnown(providers, commands, log, command);
    CountIds(IdSetOf(commands, command), providers);
    IdsStandFor(providers, index, commands, log, command);
  }

  lemma CommandKeys(providers: seq<Provider>, index: map<Provider, U32>, commands: map<Bytes, seq<U32>>, log: set<(Bytes, Provider)>)
    requires Interned(providers, index) && Kept(providers, commands, log) && NoneEmpty(commands)
    ensures forall c :: c in commands <==> c in CommandsOf(log)
  {
    forall c ensures c in commands <==> c in CommandsOf(log) {
      if c in commands {
        var id := commands[c][0];
        assert KeptFor(providers, commands, log, c, id);
        assert (c, providers[id]) in log && (c, providers[id]).0 == c;
      }
      if entry :| entry in log && entry.0 == c {
        assert entry.1 in providers;
        var id := index[entry.1];
        assert KeptFor(providers, commands, log, c, id) && entry == (c, providers[id]);
      }
    }
  }

  lemma IdsKnown(providers: seq<Provider>, commands: map<Bytes, seq<U32>>, log: set<(Bytes, Provider)>, command: Bytes)
    requires Kept(providers, commands, log)
    ensures forall id | id in IdSetOf(commands, command) :: id < |providers|
  {
    hide Kept, IdsOf;
    forall id | id in IdSetOf(commands, command) ensures id < |providers| {
      KnownId(id, providers, commands, command, log);
    }
  }

  lemma IdsStandFor(providers: seq<Provider>, index: map<Provider, U32>, commands: map<Bytes, seq<U32>>,
                    log: set<(Bytes, Provider)>, command: Bytes)
    requires Interned(providers, index) && Kept(providers, commands, log)
    requires forall id | id in IdSetOf(commands, command) :: id < |providers|
    ensures ProvidersFor(log, command) == ProvidersWith(IdSetOf(commands, command), providers)
  {
    hide IdsOf;
    var ids := IdSetOf(commands, command);
    forall p ensures p in ProvidersFor(log, command) <==> p in ProvidersWith(ids, providers) {
      if p in ProvidersFor(log, command) {
        assert (command, p) in log && (command, p).1 in providers;
        var id := index[p];
        assert KeptFor(providers, commands, log, command, id) && id in ids;
      }
      if id :| id in ids && providers[id] == p {
        assert KeptFor(providers, commands, log, command, id);
        assert (command, p) in log && (command, p).0 == command;
      }
    }
  }

  /** No command has more ids than there are providers. */
  lemma SetsFit(providers: seq<Provider>, commands: map<Bytes, seq<U32>>, log: set<(Bytes, Provider)>)
    requires Kept(providers, commands, log)
    ensures forall c | c in IdSets(commands) :: |IdSets(commands)[c]| <= |providers|
  {
    forall c | c in IdSets(commands) ensures |IdSets(commands)[c]| <= |providers| {
      IdsKnown(providers, commands, log, c);
      assert IdSets(commands)[c] == IdSetOf(commands, c);
      FewBelow(IdSets(commands)[c], |providers|);
    }
  }

  /** Record every package. */
  method RecordPackages(packages: seq<(Provider, seq<Bytes>)>) returns (r: Result<CommandBuilder, CommandError>)
    ensures r.Ok? ==> fresh(r.value) && r.value.Valid() && r.value.log == Recorded(packages)
    ensures r.Ok? ==> AllOf(r.value.providers) == ProvidersOf(packages)
    ensures r.Err? ==> |ProvidersOf(packages)| > U32_LIMIT
  {
    hide Interned, Kept, NoneEmpty, Recorded, ProvidersOf, Provided, AllOf;
    var builder := new CommandBuilder();
    NothingRecorded(packages);
    for n := 0 to |packages|
      invariant fresh(builder) && builder.Valid() && builder.log == Recorded(packages[..n])
      invariant AllOf(builder.providers) == ProvidersOf(packages[..n])
    {
      CountProviders(builder);
      OneMore(builder.providers, packages, n);
      var recorded := builder.RecordPackage(packages[n].0, packages[n].1);
      if recorded.Err? {
        TooMany(packages, n);
        return Err(recorded.error);
      }
    }
    assert packages[..|packages|] == packages;
    return Ok(builder);
  }

  ghost function AllOf(providers: seq<Provider>): set<Provider> {
    set p | p in providers
  }

  lemma NothingRecorded(packages: seq<(Provider, seq<Bytes>)>)
    ensures Recorded(packages[..0]) == {} && AllOf([]) == ProvidersOf(packages[..0])
  {
  }

  lemma OneMore(providers: seq<Provider>, packages: seq<(Provider, seq<Bytes>)>, n: nat)
    requires n < |packages| && AllOf(providers) == ProvidersOf(packages[..n])
    ensures Recorded(packages[..n + 1]) == Recorded(packages[..n]) + Provided(packages[n].0, packages[n].1)
    ensures packages[n].0 in providers <==> packages[n].0 in ProvidersOf(packages[..n])
    ensures ProvidersOf(packages[..n + 1]) == AllOf(if packages[n].0 in providers then providers else providers + [packages[n].0])
  {
    hide Provided, ProvidersOf;
    assert packages[..n + 1][..n] == packages[..n];
    OneMoreProvider(packages, n);
    WithProvider(providers, packages[n].0);
    assert packages[n].0 in AllOf(providers) <==> packages[n].0 in providers;
  }

  lemma CountProviders(builder: CommandBuilder)
    requires builder.Valid()
    ensures |AllOf(builder.providers)| == |builder.providers|
  {
    hide Kept, NoneEmpty;
    DistinctProviders(builder.providers);
  }

  lemma WithProvider(providers: seq<Provider>, p: Provider)
    ensures AllOf(providers) + {p} == AllOf(if p in providers then providers else providers + [p])
  {
  }

  lemma OneMoreProvider(packages: seq<(Provider, seq<Bytes>)>, n: nat)
    requires n < |packages|
    ensures ProvidersOf(packages[..n + 1]) == ProvidersOf(packages[..n]) + {packages[n].0}
  {
    assert packages[..n + 1] == packages[..n] + [packages[n]];
    var shorter := packages[..n];
    assert forall i | 0 <= i < n :: shorter[i] == packages[i];
  }

  lemma TooMany(packages: seq<(Provider, seq<Bytes>)>, n: nat)
    requires n < |packages| && packages[n].0 !in ProvidersOf(packages[..n]) && |ProvidersOf(packages[..n])| >= U32_LIMIT
    ensures |ProvidersOf(packages)| > U32_LIMIT
  {
    var some := ProvidersOf(packages[..n]) + {packages[n].0};
    assert forall i | 0 <= i < n :: packages[..n][i] == packages[i];
    assert some <= ProvidersOf(packages);
    FewerIn(some, ProvidersOf(packages));
  }

  lemma FewerIn(a: set<Provider>, b: set<Provider>)
    requires a <= b
    ensures |a| <= |b|
  {
    assert |b| == |a| + |b - a| by { assert b == a + (b - a); }
  }

  /**
   * The whole way: what is recorded, written and opened again is what a lookup answers with. It works exactly
   * when labels and counts are within the caps, whatever was recorded twice.
   */
  method RecordThenLookup(packages: seq<(Provider, seq<Bytes>)>, command: Bytes) returns (r: Result<seq<Provider>, CommandError>)
    ensures r.Ok? <==> WithinCaps(packages, command)
    ensures r.Ok? ==> forall p :: p in r.value <==> Provides(packages, p, command)
    ensures r.Ok? ==> forall i, j | 0 <= i < j < |r.value| :: r.value[i] != r.value[j]
  {
    hide Interned, Kept, NoneEmpty, Recorded, Provides, ProviderFile, StandsFor, IdSets, IdsOf, Ranged, IsProviderFile, AllOf, ProvidersOf,
         CommandsOf, ProvidersFor, ShortLabels;
    var recorded := RecordPackages(packages);
    if recorded.Err? {
      return Err(recorded.error);
    }
    var builder := recorded.value;
    CountsAgree(builder.providers, builder.providerIndex, builder.commands, builder.log, command);
    SetsFit(builder.providers, builder.commands, builder.log);
    LabelsFit(builder.providers, packages);
    var written := WriteSidecars(builder);
    if written.Err? {
      return Err(written.error);
    }
    var (index, bytes) := written.value;
    WrittenTable(bytes, builder.providers);
    var ranges := ParseProviders(bytes);
    if ranges.Err? {
      return Err(ranges.error);
    }
    r := LookupCommand(index, bytes, ranges.value, command, builder.providers, builder.providerIndex, builder.commands, builder.log);
    forall p ensures (command, p) in builder.log <==> Provides(packages, p, command) {
      RecordedMeans(packages, p, command);
    }
  }

  lemma LabelsFit(providers: seq<Provider>, packages: seq<(Provider, seq<Bytes>)>)
    requires AllOf(providers) == ProvidersOf(packages)
    ensures ShortLabels(providers) <==>
            forall p | p in ProvidersOf(packages) :: |p.attr| <= MAX_LABEL_BYTES && |p.output| <= MAX_LABEL_BYTES
  {
    hide ProvidersOf;
    assert forall p :: p in providers <==> p in AllOf(providers);
  }

  /** A written table can be read again when it has not too many providers. */
  lemma WrittenTable(bytes: Bytes, providers: seq<Provider>)
    requires ShortLabels(providers) && |providers| < U32_LIMIT && bytes == ProviderFile(providers)
    ensures (exists read :: IsProviderFile(bytes, read)) <==> |providers| <= MAX_PROVIDER_COUNT
    ensures |providers| <= MAX_PROVIDER_COUNT ==> IsProviderFile(bytes, providers)
  {
    hide ProviderFile, Rows, Concat, ReadU32Le;
    assert bytes[..|bytes|] == bytes;
    TableIs(bytes, providers);
    if |providers| <= MAX_PROVIDER_COUNT {
      assert IsProviderFile(bytes, providers);
    }
    if read :| IsProviderFile(bytes, read) {
      TableIs(bytes, read);
      assert |read| == |providers|;
    }
  }
}
