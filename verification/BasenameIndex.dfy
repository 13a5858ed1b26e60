/** The basename index: which packages hold a file with a given name, and what these packages are called. */
module BasenameIndex {
  import opened Wrappers
  import opened Bytes
  import opened Files
  import opened FrameWriter
  import opened SeekTable
  import opened Postings
  import opened PathIndex

  const BASENAME_MAGIC: Bytes := [78, 66, 80, 79]
  const NAMES_MAGIC: Bytes := [78, 80, 75, 71]
  const BASENAME_VERSION: U32 := 1
  const MAX_NAME_COUNT := 2_000_000
  const MAX_NAME_BYTES := 0x1_0000
  const MAX_ORDINALS_PER_BASENAME := 1_000_000

  datatype BasenameError = OrdinalOverflow | TooManyPackages | NameTooLong | NamesCorrupt | OrdinalsUnreadable(error: PostingError)

  // ---------- names of files ----------

  /** The final component of a path. */
  function BasenameOf(path: Bytes): Bytes {
    match LastIndexOf(path, SLASH)
    case None => path
    case Some(i) => path[i + 1..]
  }

  /** The name is the longest end of the path without a slash. */
  lemma BasenameIs(path: Bytes)
    ensures var name := BasenameOf(path);
            && |name| <= |path| && path[|path| - |name|..] == name && 47 !in name
            && (|name| < |path| ==> path[|path| - |name| - 1] == 47)
  {
    if SLASH in path {
      var i := BasenameBehind(path);
      hide BasenameOf;
      assert |path[i + 1..]| == |path| - i - 1;
    } else {
      WholeName(path);
    }
  }

  lemma WholeName(path: Bytes)
    requires SLASH !in path
    ensures BasenameOf(path) == path == path[0..]
  {
  }

  /** A path with a slash is what comes before the last one, the slash, and the basename. */
  lemma BasenameBehind(path: Bytes) returns (i: nat)
    requires SLASH in path
    ensures i < |path| && path[i] == SLASH && BasenameOf(path) == path[i + 1..] && SLASH !in BasenameOf(path)
  {
    i := LastIndexOf(path, SLASH).value;
  }

  /** Behind the last slash stands the basename. */
  lemma NameBehind(path: Bytes, n: nat)
    requires 0 < n <= |path| && path[n - 1] == SLASH && SLASH !in path[n..]
    ensures BasenameOf(path) == path[n..]
  {
    AbsentFrom(path, n, SLASH);
    var last := LastIndexOf(path, SLASH);
    AbsentFrom(path, last.value + 1, SLASH);
  }

  /** Some path has this name; the empty name is not indexed. */
  ghost predicate HasBasename(paths: seq<Bytes>, base: Bytes) {
    base != [] && exists p :: p in paths && BasenameOf(p) == base
  }

  lemma OneMoreBasename(paths: seq<Bytes>, path: Bytes)
    ensures forall b :: HasBasename(paths + [path], b) <==> HasBasename(paths, b) || (b != [] && b == BasenameOf(path))
  {
    hide BasenameOf;
    forall b | b != [] && b == BasenameOf(path) ensures HasBasename(paths + [path], b) {
      assert path in paths + [path];
    }
    forall b | HasBasename(paths, b) ensures HasBasename(paths + [path], b) {
      var p :| p in paths && BasenameOf(p) == b;
      assert p in paths + [path];
    }
  }

  /** A package is listed under exactly the names of its paths. */
  ghost predicate IndexesBasenames(table: map<Bytes, set<U32>>, packages: seq<seq<Bytes>>) {
    forall b: Bytes, i: U32 :: Has(table, b, i) <==> i < |packages| && HasBasename(packages[i], b)
  }

  // ---------- recording ----------

  class BasenameIndexBuilder {
    var nextOrdinal: U32
    var basenames: map<Bytes, set<U32>>
    var packageNames: seq<Bytes>

    /** The paths of every package recorded so far. */
    ghost var log: seq<seq<Bytes>>

    ghost predicate Valid()
      reads this
    {
      nextOrdinal == |packageNames| == |log| && Inhabited(basenames) && IndexesBasenames(basenames, log)
    }

    constructor ()
      ensures Valid() && log == [] && packageNames == []
    {
      nextOrdinal, basenames, packageNames, log := 0, map[], [], [];
    }

    /** Record a package: it gets the next ordinal, and its label and the names of its paths are kept under it. */
    method RecordPackage(packageName: Bytes, paths: seq<Bytes>) returns (r: Result<U32, BasenameError>)
      requires Valid()
      modifies this
      ensures Valid()
      ensures r == if |old(log)| < 0xFFFF_FFFF then Ok(|old(log)|) else Err(OrdinalOverflow)
      ensures r.Ok? ==> packageNames == old(packageNames) + [packageName] && log == old(log) + [paths]
      ensures r.Err? ==> unchanged(this)
    {
      var ordinal := nextOrdinal;
      if ordinal == 0xFFFF_FFFF {
        return Err(OrdinalOverflow);
      }
      ghost var before := basenames;
      RecordPaths(ordinal, paths);
      nextOrdinal := ordinal + 1;
      packageNames := packageNames + [packageName];
      NextPackage(before, basenames, log, paths);
      log := log + [paths];
      return Ok(ordinal);
    }

    method RecordPaths(ordinal: U32, paths: seq<Bytes>)
      requires Inhabited(basenames)
      modifies this`basenames
      ensures Inhabited(basenames)
      ensures forall b: Bytes, i: U32 ::
                Has(basenames, b, i) <==> Has(old(basenames), b, i) || (i == ordinal && HasBasename(paths, b))
    {
      hide BasenameOf;
      for n := 0 to |paths|
        invariant Inhabited(basenames)
        invariant forall b: Bytes, i: U32 ::
                    Has(basenames, b, i) <==> Has(old(basenames), b, i) || (i == ordinal && HasBasename(paths[..n], b))
      {
        assert paths[..n + 1] == paths[..n] + [paths[n]];
        hide HasBasename, Has;
        var base := BasenameOf(paths[n]);
        OneMoreBasename(paths[..n], paths[n]);
        if base != [] {
          InsertAdds(basenames, base, ordinal);
          basenames := Insert(basenames, base, ordinal);
        }
      }
      assert paths[..|paths|] == paths;
    }

    /** Both files: the names behind the posting lists. */
    method WriteSidecars() returns (r: Result<(Index, Bytes), BasenameError>)
      requires Valid()
      ensures r.Ok? <==> Printable(packageNames) && forall k | k in basenames :: |basenames[k]| < U32_LIMIT
      ensures r.Ok? ==> BasenamesOver(r.value.0, log) && Printable(packageNames) && r.value.1 == NamesFile(packageNames)
    {
      hide NamesFile;
      var names := WriteNames(packageNames);
      if names.Err? {
        return Err(names.error);
      }
      var postings := WritePostings(basenames, BASENAME_MAGIC, BASENAME_VERSION);
      if postings.Err? {
        return Err(OrdinalsUnreadable(postings.error));
      }
      return Ok((postings.value, names.value));
    }
  }

  lemma NextPackage(before: map<Bytes, set<U32>>, after: map<Bytes, set<U32>>, packages: seq<seq<Bytes>>, paths: seq<Bytes>)
    requires IndexesBasenames(before, packages) && |packages| < 0xFFFF_FFFF
    requires forall b: Bytes, i: U32 :: Has(after, b, i) <==> Has(before, b, i) || (i == |packages| && HasBasename(paths, b))
    ensures IndexesBasenames(after, packages + [paths])
  {
    hide HasBasename, Has;
  }

  /** No list is longer than there are packages. */
  lemma ListsShort(table: map<Bytes, set<U32>>, packages: seq<seq<Bytes>>)
    requires IndexesBasenames(table, packages)
    ensures forall k | k in table :: |table[k]| <= |packages|
  {
    hide HasBasename;
    forall k | k in table ensures |table[k]| <= |packages| {
      forall id | id in table[k] ensures id < |packages| {
        assert Has(table, k, id);
      }
      FewBelow(table[k], |packages|);
    }
  }

  /** A written index of these packages. */
  ghost predicate BasenamesOver(index: Index, packages: seq<seq<Bytes>>) {
    exists table :: StandsFor(index, table) && IndexesBasenames(table, packages)
  }

  // ---------- the names of packages ----------

  /** The file can be written. */
  predicate Printable(names: seq<Bytes>) {
    |names| < U32_LIMIT && forall n | n in names :: |n| < U32_LIMIT
  }

  /** The file can be read again: not too many names, none of them empty or too long. */
  predicate Readable(names: seq<Bytes>) {
    |names| <= MAX_NAME_COUNT && forall n | n in names :: 0 < |n| <= MAX_NAME_BYTES
  }

  /** Every name behind its length. */
  function NameRows(names: seq<Bytes>): Bytes
    requires forall n | n in names :: |n| < U32_LIMIT
  {
    if names == [] then []
    else
      var n := |names| - 1;
      assert names[n] in names && forall x | x in names[..n] :: x in names;
      NameRows(names[..n]) + (U32Le(|names[n]|) + names[n])
  }

  function NamesHeader(count: U32): Bytes {
    NAMES_MAGIC + U32Le(BASENAME_VERSION) + U32Le(count)
  }

  function NamesFile(names: seq<Bytes>): Bytes
    requires Printable(names)
  {
    NamesHeader(|names|) + NameRows(names)
  }

  /** `write_package_names`. */
  method WriteNames(names: seq<Bytes>) returns (r: Result<Bytes, BasenameError>)
    ensures r.Ok? <==> Printable(names)
    ensures r.Ok? ==> r.value == NamesFile(names)
  {
    if |names| >= U32_LIMIT {
      return Err(TooManyPackages);
    }
    var head := NamesHeader(|names|);
    var out := head;
    assert names[..0] == [] && head + [] == head;
    hide U32Le, NamesHeader;
    for i := 0 to |names|
      invariant (forall n | n in names[..i] :: |n| < U32_LIMIT) && out == head + NameRows(names[..i])
    {
      var name := names[i];
      assert name in names && names[..i + 1] == names[..i] + [name] && names[..i + 1][..i] == names[..i];
      if |name| >= U32_LIMIT {
        return Err(NameTooLong);
      }
      Assoc(head, NameRows(names[..i]), U32Le(|name|) + name);
      out := out + (U32Le(|name|) + name);
    }
    assert names[..|names|] == names;
    return Ok(out);
  }

  /** The file starts with a table of these names, which are all acceptable. */
  ghost predicate IsNamesFile(bytes: Bytes, names: seq<Bytes>) {
    Readable(names) && StartsWith(bytes, NamesFile(names))
  }

  predicate InBounds(bytes: Bytes, ranges: seq<(nat, nat)>) {
    forall r | r in ranges :: r.0 <= r.1 <= |bytes|
  }

  /** The names at these ranges. */
  function NamesAt(bytes: Bytes, ranges: seq<(nat, nat)>): seq<Bytes>
    requires InBounds(bytes, ranges)
  {
    seq(|ranges|, i requires 0 <= i < |ranges| => assert ranges[i] in ranges; bytes[ranges[i].0..ranges[i].1])
  }

  /** What starts with a length and that many bytes reads back so. */
  lemma LabelAt(bytes: Bytes, pos: nat, text: Bytes, rest: Bytes)
    requires pos <= |bytes| && |text| < U32_LIMIT && bytes[pos..] == U32Le(|text|) + text + rest
    ensures ReadU32Le(bytes, pos) == Some(|text|) && pos + 4 + |text| <= |bytes|
    ensures bytes[pos + 4..pos + 4 + |text|] == text && bytes[pos + 4 + |text|..] == rest
  {
    var tail := bytes[pos..];
    assert tail[..4] == U32Le(|text|) && bytes[pos..pos + 4] == tail[..4];
    U32RoundTrip(bytes, pos, |text|);
    assert tail[4..4 + |text|] == text && bytes[pos + 4..pos + 4 + |text|] == tail[4..4 + |text|];
    assert tail[4 + |text|..] == rest && bytes[pos + 4 + |text|..] == tail[4 + |text|..];
  }

  /** One turn of `parse_name_ranges`; on any bytes it stays within them. */
  method ParseName(bytes: Bytes, pos: nat, ghost want: Option<Bytes>, ghost rest: Bytes)
    returns (r: Result<(nat, nat), BasenameError>)
    requires pos <= |bytes|
    requires want.Some? ==> 0 < |want.value| <= MAX_NAME_BYTES && bytes[pos..] == U32Le(|want.value|) + want.value + rest
    ensures r.Ok? ==> var (start, end) := r.value;
              && start == pos + 4 < end <= |bytes| && end - start <= MAX_NAME_BYTES
              && bytes[pos..end] == U32Le(end - start) + bytes[start..end]
    ensures want.Some? ==> r.Ok? && bytes[r.value.0..r.value.1] == want.value && bytes[r.value.1..] == rest
  {
    if want.Some? {
      LabelAt(bytes, pos, want.value, rest);
    }
    hide ReadU32Le, U32Le;
    var len := ReadU32Le(bytes, pos);
    if len.None? {
      return Err(NamesCorrupt);
    }
    if len.value == 0 || len.value > MAX_NAME_BYTES {
      return Err(NamesCorrupt);
    }
    var start := pos + 4;
    var end: nat := start + len.value;
    if end > |bytes| {
      return Err(NamesCorrupt);
    }
    WordBytes(bytes, pos, len.value);
    assert bytes[pos..end] == bytes[pos..start] + bytes[start..end];
    return Ok((start, end));
  }

  lemma {:induction false} RowsConcat(a: seq<Bytes>, b: seq<Bytes>)
    requires forall n | n in a + b :: |n| < U32_LIMIT
    ensures (forall n | n in a :: |n| < U32_LIMIT) && forall n | n in b :: |n| < U32_LIMIT
    ensures NameRows(a + b) == NameRows(a) + NameRows(b)
    decreases |b|
  {
    hide U32Le;
    assert forall n | n in a :: n in a + b;
    assert forall n | n in b :: n in a + b;
    if b == [] {
      assert a + b == a;
    } else {
      var n := |b| - 1;
      assert a + b == a + b[..n] + [b[n]] && (a + b)[..|a| + n] == a + b[..n];
      assert forall x | x in a + b[..n] :: x in a + b;
      RowsConcat(a, b[..n]);
      Assoc(NameRows(a), NameRows(b[..n]), U32Le(|b[n]|) + b[n]);
    }
  }

  lemma RowsOne(name: Bytes)
    requires |name| < U32_LIMIT
    ensures NameRows([name]) == U32Le(|name|) + name
  {
    assert [name][..0] == [];
  }

  /** Every row takes more than four bytes. */
  lemma {:induction false} RowsLong(names: seq<Bytes>)
    requires forall n | n in names :: |n| < U32_LIMIT
    ensures |NameRows(names)| >= 4 * |names|
  {
    hide U32Le;
    if names != [] {
      var n := |names| - 1;
      assert names[n] in names && forall x | x in names[..n] :: x in names;
      RowsLong(names[..n]);
    }
  }

  /** A file begins with a magic number, a version and a count when these read back so. */
  lemma HeaderWords(bytes: Bytes, magic: Bytes, version: U32, count: U32)
    requires |magic| == 4
    ensures StartsWith(bytes, magic + U32Le(version) + U32Le(count)) <==>
            |bytes| >= 12 && bytes[..4] == magic && ReadU32Le(bytes, 4) == Some(version) && ReadU32Le(bytes, 8) == Some(count)
  {
    hide ReadU32Le, U32Le;
    if |bytes| >= 12 {
      WordBytes(bytes, 4, version);
      WordBytes(bytes, 8, count);
      var head := bytes[..12];
      assert head == bytes[..4] + bytes[4..8] + bytes[8..12];
      assert head[..4] == bytes[..4] && head[4..8] == bytes[4..8] && head[8..12] == bytes[8..12];
      var want := magic + U32Le(version) + U32Le(count);
      assert want[..4] == magic && want[4..8] == U32Le(version) && want[8..12] == U32Le(count);
    }
  }

  lemma HeaderReads(bytes: Bytes, count: U32)
    ensures StartsWith(bytes, NamesHeader(count)) <==>
            |bytes| >= 12 && bytes[..4] == NAMES_MAGIC
            && ReadU32Le(bytes, 4) == Some(BASENAME_VERSION) && ReadU32Le(bytes, 8) == Some(count)
  {
    hide ReadU32Le, U32Le, StartsWith;
    HeaderWords(bytes, NAMES_MAGIC, BASENAME_VERSION, count);
  }

  /** A file starts with a table of names when it starts with its header and its rows follow. */
  lemma FileIs(bytes: Bytes, names: seq<Bytes>)
    requires Printable(names)
    ensures StartsWith(bytes, NamesFile(names)) <==>
            StartsWith(bytes, NamesHeader(|names|)) && |bytes| >= 12 && StartsWith(bytes[12..], NameRows(names))
  {
    hide U32Le, NameRows, StartsWith;
    HeadThenRest(bytes, NamesHeader(|names|), NameRows(names));
  }

  /** Starting with two parts is starting with the first, and behind it with the second. */
  lemma HeadThenRest(bytes: Bytes, head: Bytes, rest: Bytes)
    ensures StartsWith(bytes, head + rest) <==>
            StartsWith(bytes, head) && |bytes| >= |head| && StartsWith(bytes[|head|..], rest)
  {
    var n, m := |head|, |head| + |rest|;
    if m <= |bytes| {
      assert bytes[..m][..n] == bytes[..n] && bytes[..m][n..] == bytes[n..][..m - n];
      SplitEqual(bytes[..m], n, head, rest);
    }
  }

  /** The row behind the rows read so far. */
  lemma RowBehind(bytes: Bytes, pos: nat, names: seq<Bytes>, i: nat)
    requires (forall n | n in names :: |n| < U32_LIMIT) && i < |names| && 12 <= pos <= |bytes|
    requires (forall n | n in names[..i] :: |n| < U32_LIMIT) && bytes[12..pos] == NameRows(names[..i])
    requires StartsWith(bytes[12..], NameRows(names))
    ensures |names[i]| < U32_LIMIT
    ensures exists rest :: bytes[pos..] == U32Le(|names[i]|) + names[i] + rest
  {
    hide U32Le, NameRows;
    assert names[i] in names;
    var front, name, back := names[..i], names[i], names[i + 1..];
    assert names == front + [name] + back;
    RowsConcat(front + [name], back);
    RowsConcat(front, [name]);
    RowsOne(name);
    var row := U32Le(|name|) + name;
    var rows := NameRows(names);
    assert rows == NameRows(front) + row + NameRows(back);
    assert pos == 12 + |NameRows(front)|;
    var rest := bytes[pos + |row|..];
    assert bytes[pos..pos + |row|] == rows[|NameRows(front)|..|NameRows(front)| + |row|] == row;
    assert bytes[pos..] == bytes[pos..pos + |row|] + rest;
    Assoc(U32Le(|name|), name, rest);
  }

  lemma NamesNext(bytes: Bytes, ranges: seq<(nat, nat)>, range: (nat, nat))
    requires InBounds(bytes, ranges) && range.0 <= range.1 <= |bytes|
    ensures InBounds(bytes, ranges + [range])
    ensures NamesAt(bytes, ranges + [range]) == NamesAt(bytes, ranges) + [bytes[range.0..range.1]]
  {
  }

  /** All of these can be names of packages. */
  predicate Acceptable(names: seq<Bytes>) {
    forall n | n in names :: 0 < |n| <= MAX_NAME_BYTES
  }

  /** What the rows up to a position hold, and where the names stand. */
  ghost predicate RowsRead(bytes: Bytes, pos: nat, ranges: seq<(nat, nat)>) {
    && 12 <= pos <= |bytes| && InBounds(bytes, ranges) && Acceptable(NamesAt(bytes, ranges))
    && bytes[12..pos] == NameRows(NamesAt(bytes, ranges))
  }

  /** The names read so far are the first of those that stand there. */
  ghost predicate OnTrack(bytes: Bytes, ranges: seq<(nat, nat)>, want: Option<seq<Bytes>>) {
    want.Some? ==> InBounds(bytes, ranges) && NamesAt(bytes, ranges) <= want.value
  }

  /** The file holds these names in this number. */
  ghost predicate Wants(bytes: Bytes, count: nat, want: Option<seq<Bytes>>) {
    |bytes| >= 12 && (want.Some? ==> |want.value| == count && Acceptable(want.value) && StartsWith(bytes[12..], NameRows(want.value)))
  }

  /** One more row. */
  method ParseTurn(bytes: Bytes, pos: nat, ghost ranges: seq<(nat, nat)>, ghost count: nat, ghost want: Option<seq<Bytes>>)
    returns (r: Result<(nat, nat), BasenameError>)
    requires Wants(bytes, count, want) && RowsRead(bytes, pos, ranges) && OnTrack(bytes, ranges, want) && |ranges| < count
    ensures r.Ok? ==> RowsRead(bytes, r.value.1, ranges + [r.value]) && OnTrack(bytes, ranges + [r.value], want)
    ensures want.Some? ==> r.Ok?
  {
    hide Wants, RowsRead, OnTrack, InBounds, NameRows, NamesAt, U32Le;
    ghost var name, rest := WantedRow(bytes, pos, ranges, count, want);
    ReadSoFar(bytes, pos, ranges);
    r := ParseName(bytes, pos, name, rest);
    if r.Ok? {
      OneMoreRead(bytes, pos, ranges, r.value);
      StillOnTrack(bytes, ranges, r.value, want, name);
    }
  }

  lemma ReadSoFar(bytes: Bytes, pos: nat, ranges: seq<(nat, nat)>)
    requires RowsRead(bytes, pos, ranges)
    ensures 12 <= pos <= |bytes| && InBounds(bytes, ranges)
  {
  }

  lemma OneMoreRead(bytes: Bytes, pos: nat, ranges: seq<(nat, nat)>, range: (nat, nat))
    requires RowsRead(bytes, pos, ranges) && pos <= |bytes|
    requires range.0 == pos + 4 < range.1 <= |bytes| && range.1 - range.0 <= MAX_NAME_BYTES
    requires bytes[pos..range.1] == U32Le(range.1 - range.0) + bytes[range.0..range.1]
    ensures RowsRead(bytes, range.1, ranges + [range])
  {
    hide U32Le, NameRows, NamesAt;
    NamesNext(bytes, ranges, range);
    RowRead(bytes, pos, NamesAt(bytes, ranges), range);
  }

  lemma WantedRow(bytes: Bytes, pos: nat, ranges: seq<(nat, nat)>, count: nat, want: Option<seq<Bytes>>)
    returns (name: Option<Bytes>, rest: Bytes)
    requires Wants(bytes, count, want) && RowsRead(bytes, pos, ranges) && OnTrack(bytes, ranges, want) && |ranges| < count
    ensures want.Some? ==> |ranges| < |want.value|
    ensures name == if want.Some? then Some(want.value[|ranges|]) else None
    ensures name.Some? ==> 0 < |name.value| <= MAX_NAME_BYTES && bytes[pos..] == U32Le(|name.value|) + name.value + rest
  {
    hide U32Le, NameRows, StartsWith;
    name, rest := None, [];
    if want.Some? {
      var i := |ranges|;
      assert NamesAt(bytes, ranges) == want.value[..i];
      RowBehind(bytes, pos, want.value, i);
      rest :| bytes[pos..] == U32Le(|want.value[i]|) + want.value[i] + rest;
      assert want.value[i] in want.value;
      name := Some(want.value[i]);
    }
  }

  lemma StillOnTrack(bytes: Bytes, ranges: seq<(nat, nat)>, range: (nat, nat), want: Option<seq<Bytes>>, name: Option<Bytes>)
    requires OnTrack(bytes, ranges, want) && InBounds(bytes, ranges) && range.0 <= range.1 <= |bytes|
    requires want.Some? ==> |ranges| < |want.value| && name == Some(want.value[|ranges|])
    requires name.Some? ==> bytes[range.0..range.1] == name.value
    ensures OnTrack(bytes, ranges + [range], want)
  {
    NamesNext(bytes, ranges, range);
  }

  /** The rows, one behind the other: what is read is what stands there, and what stands there is read. */
  method ParseNameRows(bytes: Bytes, count: nat, ghost want: Option<seq<Bytes>>)
    returns (r: Result<seq<(nat, nat)>, BasenameError>)
    requires Wants(bytes, count, want)
    ensures r.Ok? ==> |r.value| == count && InBounds(bytes, r.value) && Acceptable(NamesAt(bytes, r.value))
                      && StartsWith(bytes[12..], NameRows(NamesAt(bytes, r.value)))
    ensures want.Some? ==> r.Ok?
  {
    var ranges: seq<(nat, nat)> := [];
    var pos: nat := 12;
    NothingRead(bytes, want);
    hide RowsRead, OnTrack, Wants, NameRows;
    for i := 0 to count
      invariant |ranges| == i && RowsRead(bytes, pos, ranges) && OnTrack(bytes, ranges, want)
    {
      var range := ParseTurn(bytes, pos, ranges, count, want);
      if range.Err? {
        return Err(range.error);
      }
      ranges := ranges + [range.value];
      pos := range.value.1;
    }
    AllRead(bytes, pos, ranges);
    return Ok(ranges);
  }

  lemma NothingRead(bytes: Bytes, want: Option<seq<Bytes>>)
    requires |bytes| >= 12
    ensures RowsRead(bytes, 12, []) && OnTrack(bytes, [], want)
  {
    assert NamesAt(bytes, []) == [] && bytes[12..12] == [];
  }

  lemma AllRead(bytes: Bytes, pos: nat, ranges: seq<(nat, nat)>)
    requires RowsRead(bytes, pos, ranges)
    ensures InBounds(bytes, ranges) && Acceptable(NamesAt(bytes, ranges))
    ensures |bytes| >= 12 && StartsWith(bytes[12..], NameRows(NamesAt(bytes, ranges)))
  {
    assert bytes[12..][..pos - 12] == bytes[12..pos];
  }

  lemma RowRead(bytes: Bytes, pos: nat, read: seq<Bytes>, range: (nat, nat))
    requires 12 <= pos <= |bytes| && Acceptable(read) && bytes[12..pos] == NameRows(read)
    requires range.0 == pos + 4 < range.1 <= |bytes| && range.1 - range.0 <= MAX_NAME_BYTES
    requires bytes[pos..range.1] == U32Le(range.1 - range.0) + bytes[range.0..range.1]
    ensures Acceptable(read + [bytes[range.0..range.1]])
    ensures bytes[12..range.1] == NameRows(read + [bytes[range.0..range.1]])
  {
    hide U32Le, NameRows;
    var name := bytes[range.0..range.1];
    RowsConcat(read, [name]);
    RowsOne(name);
    assert bytes[12..range.1] == bytes[12..pos] + bytes[pos..range.1];
  }

  /**
   * `parse_name_ranges`: it accepts exactly the files that start with a printed table of acceptable
   * names, and finds where these names stand. What follows the table is ignored.
   */
  method ParseNames(bytes: Bytes) returns (r: Result<seq<(nat, nat)>, BasenameError>)
    ensures r.Ok? <==> exists names :: IsNamesFile(bytes, names)
    ensures r.Ok? ==> InBounds(bytes, r.value) && IsNamesFile(bytes, NamesAt(bytes, r.value))
  {
    ghost var want := None;
    if exists names :: IsNamesFile(bytes, names) {
      ghost var names :| IsNamesFile(bytes, names);
      want := Some(names);
      FileHolds(bytes, names);
    }
    hide ReadU32Le, NameRows, NamesHeader, NamesFile, StartsWith, NamesAt, Readable, Printable;
    if |bytes| < 4 || bytes[..4] != NAMES_MAGIC {
      return Err(NamesCorrupt);
    }
    if ReadU32Le(bytes, 4) != Some(BASENAME_VERSION) {
      return Err(NamesCorrupt);
    }
    var counted := ReadU32Le(bytes, 8);
    if counted.None? {
      return Err(NamesCorrupt);
    }
    var count: nat := counted.value;
    if count > MAX_NAME_COUNT || count * 4 > |bytes| - 12 {
      return Err(NamesCorrupt);
    }
    r := ParseNameRows(bytes, count, want);
    if r.Ok? {
      FileRead(bytes, NamesAt(bytes, r.value));
    }
  }

  lemma FileHolds(bytes: Bytes, names: seq<Bytes>)
    requires IsNamesFile(bytes, names)
    ensures Wants(bytes, |names|, Some(names)) && |names| <= MAX_NAME_COUNT && |names| * 4 <= |bytes| - 12
    ensures bytes[..4] == NAMES_MAGIC && ReadU32Le(bytes, 4) == Some(BASENAME_VERSION) && ReadU32Le(bytes, 8) == Some(|names|)
  {
    hide NameRows, NamesHeader, NamesFile, ReadU32Le;
    FileIs(bytes, names);
    HeaderReads(bytes, |names|);
    RowsLong(names);
  }

  lemma FileRead(bytes: Bytes, names: seq<Bytes>)
    requires Acceptable(names) && |names| <= MAX_NAME_COUNT && |bytes| >= 12 && StartsWith(bytes[12..], NameRows(names))
    requires bytes[..4] == NAMES_MAGIC && ReadU32Le(bytes, 4) == Some(BASENAME_VERSION) && ReadU32Le(bytes, 8) == Some(|names|)
    ensures IsNamesFile(bytes, names)
  {
    hide NameRows, NamesHeader, NamesFile, ReadU32Le, StartsWith;
    HeaderReads(bytes, |names|);
    FileIs(bytes, names);
  }

  /** No file starts with two different tables. */
  lemma NamesUnique(bytes: Bytes, a: seq<Bytes>, b: seq<Bytes>)
    requires Printable(a) && Printable(b) && StartsWith(bytes, NamesFile(a)) && StartsWith(bytes, NamesFile(b))
    ensures a == b
  {
    FileIs(bytes, a);
    FileIs(bytes, b);
    HeaderReads(bytes, |a|);
    HeaderReads(bytes, |b|);
    SameRows(bytes, a, b, |a|);
    assert a == a[..|a|] && b == b[..|b|];
  }

  /** A table with a name over the cap can be written, and then not be opened. */
  lemma LongNameUnreadable(names: seq<Bytes>, name: Bytes)
    requires Printable(names) && name in names && |name| > MAX_NAME_BYTES
    ensures forall other :: !IsNamesFile(NamesFile(names), other)
  {
    forall other ensures !IsNamesFile(NamesFile(names), other) {
      if IsNamesFile(NamesFile(names), other) {
        NamesUnique(NamesFile(names), names, other);
      }
    }
  }

  lemma {:induction false} SameRows(bytes: Bytes, a: seq<Bytes>, b: seq<Bytes>, n: nat)
    requires |bytes| >= 12 && |a| == |b| && n <= |a| && Printable(a) && Printable(b)
    requires StartsWith(bytes[12..], NameRows(a)) && StartsWith(bytes[12..], NameRows(b))
    ensures a[..n] == b[..n]
  {
    hide NameRows, U32Le, ReadU32Le;
    if n > 0 {
      SameRows(bytes, a, b, n - 1);
      var pos := RowsFit(bytes, a, n - 1);
      RowBehind(bytes, pos, a, n - 1);
      RowBehind(bytes, pos, b, n - 1);
      var x :| bytes[pos..] == U32Le(|a[n - 1]|) + a[n - 1] + x;
      var y :| bytes[pos..] == U32Le(|b[n - 1]|) + b[n - 1] + y;
      LabelAt(bytes, pos, a[n - 1], x);
      LabelAt(bytes, pos, b[n - 1], y);
      assert a[..n] == a[..n - 1] + [a[n - 1]] && b[..n] == b[..n - 1] + [b[n - 1]];
    }
  }

  lemma RowsFit(bytes: Bytes, names: seq<Bytes>, i: nat) returns (pos: nat)
    requires |bytes| >= 12 && Printable(names) && StartsWith(bytes[12..], NameRows(names)) && i <= |names|
    ensures (forall n | n in names[..i] :: |n| < U32_LIMIT) && 12 <= pos <= |bytes| && bytes[12..pos] == NameRows(names[..i])
  {
    hide NameRows;
    assert names == names[..i] + names[i..];
    RowsConcat(names[..i], names[i..]);
    pos := 12 + |NameRows(names[..i])|;
    assert bytes[12..pos] == bytes[12..][..pos - 12] == NameRows(names)[..pos - 12];
  }

  // ---------- lookups ----------

  /** The ordinals of the packages that hold a file of this name, in order. */
  ghost function OrdinalsOf(packages: seq<seq<Bytes>>, base: Bytes): (ordinals: seq<nat>)
    ensures forall o | o in ordinals :: o < |packages|
  {
    if packages == [] then []
    else
      var n := |packages| - 1;
      OrdinalsOf(packages[..n], base) + if HasBasename(packages[n], base) then [n] else []
  }

  /** The labels of these packages, in the same order. */
  ghost function LabelsOf(names: seq<Bytes>, packages: seq<seq<Bytes>>, base: Bytes): seq<Bytes>
    requires |names| == |packages|
  {
    var ordinals := OrdinalsOf(packages, base);
    seq(|ordinals|, i requires 0 <= i < |ordinals| => assert ordinals[i] in ordinals; names[ordinals[i]])
  }

  /** There is only one ascending list of them. */
  lemma {:induction false} ListIs(ids: seq<U32>, packages: seq<seq<Bytes>>, base: Bytes)
    requires Ascending(ids) && |packages| <= U32_LIMIT
    requires forall id: U32 :: id in ids <==> id < |packages| && HasBasename(packages[id], base)
    ensures ids == OrdinalsOf(packages, base)
    decreases |packages|
  {
    hide HasBasename;
    assert |ids| > 0 ==> ids[0] in ids;
    if packages != [] {
      var n := |packages| - 1;
      if HasBasename(packages[n], base) {
        var id: U32 := n;
        assert id in ids;
        var last := |ids| - 1;
        assert ids[last] in ids;
        assert ids[last] == n;
        forall i: U32 ensures i in ids[..last] <==> i < n && HasBasename(packages[i], base) {
          if i in ids && i != n {
            var at :| 0 <= at < |ids| && ids[at] == i;
            assert ids[..last][at] == i;
          }
        }
        ListIs(ids[..last], packages[..n], base);
        assert ids == ids[..last] + [ids[last]];
      } else {
        ListIs(ids, packages[..n], base);
      }
    }
  }

  /** `lookup_basename_ordinals`: exactly the packages that hold a file of this name, each once and in order. */
  method LookupOrdinals(index: Index, base: Bytes, ghost packages: seq<seq<Bytes>>) returns (r: Result<seq<U32>, BasenameError>)
    requires BasenamesOver(index, packages) && |packages| <= U32_LIMIT
    ensures r.Ok? <==> |OrdinalsOf(packages, base)| <= MAX_ORDINALS_PER_BASENAME
    ensures r.Ok? ==> r.value == OrdinalsOf(packages, base)
  {
    ghost var table :| StandsFor(index, table) && IndexesBasenames(table, packages);
    hide HasBasename, Ascending;
    if base !in index.cookies {
      NoList(table, packages, base);
      return Ok([]);
    }
    ghost var all :| Lists(all, table[base]) && |all| == |table[base]|;
    ListUnder(table, packages, base, all);
    var ids := ListOf(index, base, MAX_ORDINALS_PER_BASENAME, table);
    if ids.Err? {
      return Err(OrdinalsUnreadable(ids.error));
    }
    ListUnder(table, packages, base, ids.value);
    return Ok(ids.value);
  }

  lemma NoList(table: map<Bytes, set<U32>>, packages: seq<seq<Bytes>>, base: Bytes)
    requires IndexesBasenames(table, packages) && base !in table && |packages| <= U32_LIMIT
    ensures OrdinalsOf(packages, base) == []
  {
    forall id: U32 ensures !(id < |packages| && HasBasename(packages[id], base)) {
      assert !Has(table, base, id);
    }
    ListIs([], packages, base);
  }

  lemma ListUnder(table: map<Bytes, set<U32>>, packages: seq<seq<Bytes>>, base: Bytes, ids: seq<U32>)
    requires IndexesBasenames(table, packages) && base in table && Lists(ids, table[base]) && |packages| <= U32_LIMIT
    ensures ids == OrdinalsOf(packages, base)
  {
    hide HasBasename;
    forall id: U32 ensures id in ids <==> id < |packages| && HasBasename(packages[id], base) {
      assert Has(table, base, id) <==> id < |packages| && HasBasename(packages[id], base);
    }
    ListIs(ids, packages, base);
  }

  /** `lookup_basename`: the labels of these packages, from the two files as they were written. */
  method LookupBasename(index: Index, bytes: Bytes, ranges: seq<(nat, nat)>, base: Bytes,
                        ghost names: seq<Bytes>, ghost packages: seq<seq<Bytes>>) returns (r: Result<seq<Bytes>, BasenameError>)
    requires BasenamesOver(index, packages) && |names| == |packages| <= U32_LIMIT
    requires InBounds(bytes, ranges) && NamesAt(bytes, ranges) == names
    ensures r.Ok? <==> |OrdinalsOf(packages, base)| <= MAX_ORDINALS_PER_BASENAME
    ensures r.Ok? ==> r.value == LabelsOf(names, packages, base)
  {
    hide BasenamesOver, OrdinalsOf;
    var found := LookupOrdinals(index, base, packages);
    if found.Err? {
      return Err(found.error);
    }
    var ids := found.value;
    var labels: seq<Bytes> := [];
    for i := 0 to |ids|
      invariant |labels| == i && forall k | 0 <= k < i :: labels[k] == LabelsOf(names, packages, base)[k]
    {
      assert ids[i] in ids;
      var range := ranges[ids[i]];
      assert range in ranges && NamesAt(bytes, ranges)[ids[i]] == bytes[range.0..range.1];
      labels := labels + [bytes[range.0..range.1]];
    }
    return Ok(labels);
  }

  /** Record every package under its ordinal. */
  method RecordPackages(labels: seq<Bytes>, packages: seq<seq<Bytes>>) returns (r: Result<BasenameIndexBuilder, BasenameError>)
    requires |labels| == |packages|
    ensures r.Ok? <==> |packages| <= 0xFFFF_FFFF
    ensures r.Ok? ==> fresh(r.value) && r.value.Valid() && r.value.packageNames == labels && r.value.log == packages
  {
    var builder := new BasenameIndexBuilder();
    assert labels[..0] == [] && packages[..0] == [];
    hide IndexesBasenames, Inhabited;
    for i := 0 to |labels|
      invariant fresh(builder) && builder.Valid()
      invariant builder.packageNames == labels[..i] && builder.log == packages[..i]
    {
      var recorded := builder.RecordPackage(labels[i], packages[i]);
      if recorded.Err? {
        return Err(recorded.error);
      }
      assert labels[..i + 1] == labels[..i] + [labels[i]] && packages[..i + 1] == packages[..i] + [packages[i]];
    }
    assert labels[..|labels|] == labels && packages[..|packages|] == packages;
    return Ok(builder);
  }

  /** The whole way: what was recorded, written and opened again is what a lookup answers with. */
  method RecordThenLookup(labels: seq<Bytes>, packages: seq<seq<Bytes>>, base: Bytes)
    returns (r: Result<seq<Bytes>, BasenameError>)
    requires |labels| == |packages|
    ensures r.Ok? <==> |packages| <= 0xFFFF_FFFF && Readable(labels) && |OrdinalsOf(packages, base)| <= MAX_ORDINALS_PER_BASENAME
    ensures r.Ok? ==> r.value == LabelsOf(labels, packages, base)
  {
    hide HasBasename, IndexesBasenames, Inhabited, OrdinalsOf, BasenamesOver, NamesFile, NamesAt;
    var recorded := RecordPackages(labels, packages);
    if recorded.Err? {
      return Err(recorded.error);
    }
    var builder := recorded.value;
    ListsShort(builder.basenames, packages);
    var written := builder.WriteSidecars();
    if written.Err? {
      return Err(written.error);
    }
    var (index, bytes) := written.value;
    var ranges := ParseNames(bytes);
    if ranges.Err? {
      assert Readable(labels) ==> IsNamesFile(bytes, labels);
      return Err(ranges.error);
    }
    NamesUnique(bytes, labels, NamesAt(bytes, ranges.value));
    r := LookupBasename(index, bytes, ranges.value, base, labels, packages);
  }
}
