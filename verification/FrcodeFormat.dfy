/**
 * The prefix-differential stream format, stated without any buffer: what an entry is, how a list of
 * packages is printed, and what a reader with unbounded memory makes of a stream.
 */
module FrcodeFormat {
  import opened Wrappers
  import opened Bytes

  datatype Error =
    | SharedOutOfRange(previousLen: nat, sharedLen: int)
    | SharedOverflow(shared: int, diff: int)
    | MissingNul
    | MissingNewline
    | MissingPrefixDifferential
    | ForbiddenByte

  /** Metadata and path of one entry; a package ends with a footer entry of the same form. */
  datatype Entry = Entry(meta: Bytes, path: Bytes)

  datatype Package = Package(entries: seq<Entry>, footer: Entry)

  const I16_MAX := 0x7FFF
  const ISIZE_MAX := 0x7FFF_FFFF_FFFF_FFFF
  const EXTENDED: Byte := 0x80

  // ---------- lines ----------

  function Line(entry: Entry): Bytes {
    entry.meta + [NUL] + entry.path + [NEWLINE]
  }

  function Lines(entries: seq<Entry>): Bytes {
    if entries == [] then [] else Line(entries[0]) + Lines(entries[1..])
  }

  function PackageLines(package: Package): Bytes {
    Lines(package.entries) + Line(package.footer)
  }

  function AllLines(packages: seq<Package>): Bytes {
    if packages == [] then [] else PackageLines(packages[0]) + AllLines(packages[1..])
  }

  // ---------- differentials ----------

  /** The two's-complement bytes of a 16-bit differential, short when one byte can hold it. */
  function DiffBytes(diff: int): Bytes
    requires -I16_MAX <= diff <= I16_MAX
  {
    var word := diff % 0x1_0000;
    if -127 < diff < 127 then [word % 256] else [EXTENDED, word / 256, word % 256]
  }

  function ToI16(word: int): int
    requires 0 <= word < 0x1_0000
  {
    if word < 0x8000 then word else word - 0x1_0000
  }

  function ToI8(b: Byte): int {
    if b < 0x80 then b else b - 0x100
  }

  /** The differential at the front of some bytes and how many bytes it takes. */
  function ReadDiff(s: Bytes): (r: Option<(int, nat)>)
    ensures r.Some? ==> 1 <= r.value.1 <= |s|
  {
    if s == [] then None
    else if s[0] == EXTENDED then
      if |s| < 3 then None
      else
        var high: int, low: int := s[1], s[2];
        Some((ToI16(high * 256 + low), 3))
    else Some((ToI8(s[0]), 1))
  }

  /** Reading a printed differential gives the number and stops right behind it. */
  lemma DiffRoundTrip(diff: int, rest: Bytes)
    requires -I16_MAX <= diff <= I16_MAX
    ensures ReadDiff(DiffBytes(diff) + rest) == Some((diff, |DiffBytes(diff)|))
  {
    var word := diff % 0x1_0000;
    assert word == if diff < 0 then diff + 0x1_0000 else diff;
  }

  // ---------- printing ----------

  /** The length of the longest common prefix, cut off at the largest 16-bit integer. */
  function SharedLen(last: Bytes, path: Bytes): (n: nat)
    ensures n <= I16_MAX && n <= |last| && n <= |path| && last[..n] == path[..n]
    ensures n < I16_MAX && n < |last| && n < |path| ==> last[n] != path[n]
  {
    SharedFrom(last, path, 0)
  }

  function SharedFrom(last: Bytes, path: Bytes, n: nat): (r: nat)
    requires n <= I16_MAX && n <= |last| && n <= |path| && last[..n] == path[..n]
    ensures n <= r <= I16_MAX && r <= |last| && r <= |path| && last[..r] == path[..r]
    ensures r < I16_MAX && r < |last| && r < |path| ==> last[r] != path[r]
    decreases I16_MAX - n
  {
    if n < |last| && n < |path| && last[n] == path[n] && n != I16_MAX then
      assert last[..n + 1] == last[..n] + [last[n]] && path[..n + 1] == path[..n] + [path[n]];
      SharedFrom(last, path, n + 1)
    else n
  }

  /** One entry on the wire: metadata, NUL, change of the shared length, rest of the path, newline. */
  function Printed(entry: Entry, before: nat, shared: nat): Bytes
    requires before <= I16_MAX && shared <= I16_MAX && shared <= |entry.path|
  {
    entry.meta + [NUL] + DiffBytes(shared - before) + entry.path[shared..] + [NEWLINE]
  }

  /** The entries of a package after `last`, and the footer, which shares nothing. */
  function PrintedFrom(last: Bytes, before: nat, entries: seq<Entry>, footer: Entry): Bytes
    requires before <= I16_MAX
    decreases |entries|
  {
    if entries == [] then Printed(footer, before, 0)
    else
      var shared := SharedLen(last, entries[0].path);
      Printed(entries[0], before, shared) + PrintedFrom(entries[0].path, shared, entries[1..], footer)
  }

  function PrintedPackage(package: Package): Bytes {
    PrintedFrom([], 0, package.entries, package.footer)
  }

  function PrintedAll(packages: seq<Package>): Bytes {
    if packages == [] then [] else PrintedPackage(packages[0]) + PrintedAll(packages[1..])
  }

  predicate CleanEntry(entry: Entry) {
    Clean(entry.meta) && Clean(entry.path)
  }

  predicate CleanPackage(package: Package) {
    CleanEntry(package.footer) && forall e | e in package.entries :: CleanEntry(e)
  }

  // ---------- reading with unbounded memory ----------

  /** What a reader knows: all text so far, where the last path began, the shared length, the rest. */
  datatype Stream = Stream(text: Bytes, lastPath: nat, shared: int, input: Bytes)

  /** Take the input up to and including its first NUL. */
  function TakeChunk(s: Stream): Stream
    requires NUL in s.input
  {
    var k := IndexOf(s.input, NUL);
    s.(text := s.text + s.input[..k + 1], input := s.input[k + 1..])
  }

  /** Read the differential and apply it to the shared length. */
  function TakeDiff(s: Stream): (r: Result<Stream, Error>)
    ensures r.Ok? ==> |r.value.input| < |s.input|
  {
    match ReadDiff(s.input)
    case None => Err(MissingPrefixDifferential)
    case Some((diff, n)) =>
      if -ISIZE_MAX - 1 <= s.shared + diff <= ISIZE_MAX then
        Ok(s.(shared := s.shared + diff, input := s.input[n..]))
      else Err(SharedOverflow(s.shared, diff))
  }

  /** Repeat the shared part of the last path; the new path begins with it. */
  function CopyShared(s: Stream): Result<Stream, Error>
    requires s.lastPath <= |s.text|
  {
    var previousLen := |s.text| - s.lastPath;
    if 0 <= s.shared <= previousLen then
      Ok(s.(text := s.text + s.text[s.lastPath..s.lastPath + s.shared], lastPath := |s.text|))
    else Err(SharedOutOfRange(previousLen, s.shared))
  }

  /** One entry boundary: chunk, differential, shared prefix. */
  function NextEntry(s: Stream): (r: Result<Stream, Error>)
    requires s.lastPath <= |s.text| && NUL in s.input
    ensures r.Ok? ==> |r.value.input| < |s.input| && r.value.lastPath <= |r.value.text|
  {
    match TakeDiff(TakeChunk(s))
    case Err(e) => Err(e)
    case Ok(t) => CopyShared(t)
  }

  /** Everything a stream stands for. */
  function Expand(s: Stream): Result<Bytes, Error>
    requires s.lastPath <= |s.text|
    decreases |s.input|
  {
    if NUL !in s.input then Ok(s.text + s.input)
    else match NextEntry(s)
      case Err(e) => Err(e)
      case Ok(t) => Expand(t)
  }

  function Whole(input: Bytes): Stream {
    Stream([], 0, 0, input)
  }

  /** The text only grows, so whatever has been read is a prefix of what the stream stands for. */
  lemma {:induction false} ExpandExtends(s: Stream)
    requires s.lastPath <= |s.text| && Expand(s).Ok?
    ensures s.text <= Expand(s).value
    decreases |s.input|
  {
    if NUL in s.input {
      ExpandExtends(NextEntry(s).value);
    }
  }

  // ---------- regular streams ----------

  /** The copied prefix of the entry being read holds no separator. */
  predicate InsideEntry(s: Stream) {
    && 0 < s.lastPath <= |s.text|
    && s.text[s.lastPath - 1] == NUL
    && |s.text| == s.lastPath + s.shared
    && Clean(s.text[s.lastPath..])
  }

  /**
   * A stream of whole entries: each path ends with a newline before the next metadata begins, each
   * shared prefix lies inside the last path, and the last entry, a footer, shares nothing.
   */
  ghost predicate Regular(s: Stream)
    decreases |s.input|
  {
    && InsideEntry(s)
    && if NUL !in s.input then
         s.shared == 0 && s.input != [] && s.input[|s.input| - 1] == NEWLINE
       else
         && NEWLINE in s.input[..IndexOf(s.input, NUL)]
         && NextEntry(s).Ok?
         && Regular(NextEntry(s).value)
  }

  /** A whole stream is regular when it is empty or is regular from its first entry on. */
  ghost predicate RegularStream(input: Bytes) {
    input == [] || (NUL in input && NextEntry(Whole(input)).Ok? && Regular(NextEntry(Whole(input)).value))
  }
}
