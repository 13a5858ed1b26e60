/** File trees, their flattened entries, and the metadata bytes of an entry. */
module Files {
  import opened Wrappers
  import opened Bytes

  datatype FileType = RegularType(executable: bool) | DirectoryType | SymlinkType

  /** A node without its contents. */
  datatype FileNode =
    | Regular(size: U64, executable: bool)
    | Symlink(target: Bytes)
    | Directory(size: U64)
  {
    function GetType(): FileType {
      match this
      case Regular(_, executable) => RegularType(executable)
      case Symlink(_) => SymlinkType
      case Directory(_) => DirectoryType
    }

    function Size(): U64 {
      match this
      case Regular(size, _) => size
      case Symlink(_) => 0
      case Directory(size) => size
    }
  }

  datatype FileTree =
    | RegularTree(size: U64, executable: bool)
    | SymlinkTree(target: Bytes)
    | DirectoryTree(size: U64, contents: seq<(Bytes, FileTree)>)
  {
    /** The content-free node, and the contents when there are any. */
    function SplitContents(): (FileNode, Option<seq<(Bytes, FileTree)>>) {
      match this
      case RegularTree(size, executable) => (Regular(size, executable), None)
      case SymlinkTree(target) => (Symlink(target), None)
      case DirectoryTree(size, contents) => (Directory(size), Some(contents))
    }
  }

  datatype FileTreeEntry = FileTreeEntry(path: Bytes, node: FileNode)

  // ---------- flattening a tree ----------

  const SLASH: Byte := 47

  function ChildPath(path: Bytes, name: Bytes): Bytes {
    path + [SLASH] + name
  }

  /** The listing one would write down: a node, then its children from first to last. */
  ghost function Listing(path: Bytes, tree: FileTree): seq<FileTreeEntry>
    decreases tree, 1, 0
  {
    [FileTreeEntry(path, tree.SplitContents().0)] +
    if tree.DirectoryTree? then ListingOf(path, tree, |tree.contents|) else []
  }

  /** The listings of the first `n` children of a directory. */
  ghost function ListingOf(path: Bytes, tree: FileTree, n: nat): seq<FileTreeEntry>
    requires tree.DirectoryTree? && n <= |tree.contents|
    decreases tree, 0, n
  {
    if n == 0 then []
    else
      var child := tree.contents[n - 1];
      ListingOf(path, tree, n - 1) + Listing(ChildPath(path, child.0), child.1)
  }

  /** The entries of a list whose path starts with the prefix. */
  function Filtered(entries: seq<FileTreeEntry>, prefix: Bytes): seq<FileTreeEntry> {
    if entries == [] then []
    else (if StartsWith(entries[0].path, prefix) then [entries[0]] else []) + Filtered(entries[1..], prefix)
  }

  lemma {:induction false} FilteredConcat(a: seq<FileTreeEntry>, b: seq<FileTreeEntry>, prefix: Bytes)
    ensures Filtered(a + b, prefix) == Filtered(a, prefix) + Filtered(b, prefix)
  {
    if a == [] {
      assert a + b == b;
    } else {
      FilteredConcat(a[1..], b, prefix);
      assert (a + b)[1..] == a[1..] + b;
      Assoc(if StartsWith(a[0].path, prefix) then [a[0]] else [], Filtered(a[1..], prefix), Filtered(b, prefix));
    }
  }

  /** What a list contributes to the filtered result, order aside. */
  ghost function Share(entries: seq<FileTreeEntry>, prefix: Bytes): multiset<FileTreeEntry> {
    multiset(Filtered(entries, prefix))
  }

  /** What a stack of unvisited nodes still has to contribute. */
  ghost function Pending(stack: seq<(Bytes, FileTree)>, prefix: Bytes): multiset<FileTreeEntry> {
    if stack == [] then multiset{}
    else
      var top := stack[|stack| - 1];
      Pending(stack[..|stack| - 1], prefix) + Share(Listing(top.0, top.1), prefix)
  }

  /** How many nodes a stack still has to visit. */
  ghost function Unvisited(stack: seq<(Bytes, FileTree)>): nat {
    if stack == [] then 0
    else
      var top := stack[|stack| - 1];
      Unvisited(stack[..|stack| - 1]) + |Listing(top.0, top.1)|
  }

  /**
   * `FileTree::to_list`: an explicit stack, popped from the top, so the children of a directory
   * come out in a different order from the recursive listing but with the same contents.
   */
  method ToList(tree: FileTree, prefix: Bytes) returns (result: seq<FileTreeEntry>)
    ensures multiset(result) == multiset(Filtered(Listing([], tree), prefix))
  {
    result := [];
    var stack: seq<(Bytes, FileTree)> := [([], tree)];
    ghost var goal := Share(Listing([], tree), prefix);
    PushOne([], stack[0], prefix);
    assert [] + [stack[0]] == stack;
    while stack != []
      invariant multiset(result) + Pending(stack, prefix) == goal
      decreases Unvisited(stack)
    {
      var found;
      stack, found := Visit(stack, prefix);
      assert multiset(result + found) == multiset(result) + multiset(found);
      result := result + found;
    }
  }

  /** One turn of the loop: pop a node, push its children, and report the node if its path passes. */
  method Visit(stack: seq<(Bytes, FileTree)>, prefix: Bytes)
    returns (rest: seq<(Bytes, FileTree)>, found: seq<FileTreeEntry>)
    requires stack != []
    ensures Pending(stack, prefix) == multiset(found) + Pending(rest, prefix)
    ensures Unvisited(rest) < Unvisited(stack)
  {
    var item := stack[|stack| - 1];
    PopOne(stack, prefix);
    ListingSplits(item.0, item.1, prefix);
    rest := stack[..|stack| - 1];
    var (node, contents) := item.1.SplitContents();
    if contents.Some? {
      rest := PushChildren(rest, item.0, item.1, prefix);
    }
    found := if StartsWith(item.0, prefix) then [FileTreeEntry(item.0, node)] else [];
  }

  /** The inner loop of `to_list`: push every child of a directory, first to last. */
  method PushChildren(below: seq<(Bytes, FileTree)>, path: Bytes, tree: FileTree, ghost prefix: Bytes)
    returns (stack: seq<(Bytes, FileTree)>)
    requires tree.DirectoryTree?
    ensures Pending(stack, prefix) == Pending(below, prefix) + Share(ListingOf(path, tree, |tree.contents|), prefix)
    ensures Unvisited(stack) == Unvisited(below) + |ListingOf(path, tree, |tree.contents|)|
  {
    stack := below;
    NoneListed(path, tree, prefix);
    hide *;
    for i := 0 to |tree.contents|
      invariant Pending(stack, prefix) == Pending(below, prefix) + Share(ListingOf(path, tree, i), prefix)
      invariant Unvisited(stack) == Unvisited(below) + |ListingOf(path, tree, i)|
    {
      var (name, child) := tree.contents[i];
      PushNext(below, stack, path, tree, i, prefix);
      stack := stack + [(ChildPath(path, name), child)];
    }
  }

  lemma NoneListed(path: Bytes, tree: FileTree, prefix: Bytes)
    requires tree.DirectoryTree?
    ensures ListingOf(path, tree, 0) == [] && Share([], prefix) == multiset{}
  {
  }

  lemma PushNext(below: seq<(Bytes, FileTree)>, stack: seq<(Bytes, FileTree)>, path: Bytes, tree: FileTree, i: nat, prefix: Bytes)
    requires tree.DirectoryTree? && i < |tree.contents|
    requires Pending(stack, prefix) == Pending(below, prefix) + Share(ListingOf(path, tree, i), prefix)
    requires Unvisited(stack) == Unvisited(below) + |ListingOf(path, tree, i)|
    ensures var longer := stack + [(ChildPath(path, tree.contents[i].0), tree.contents[i].1)];
            && Pending(longer, prefix) == Pending(below, prefix) + Share(ListingOf(path, tree, i + 1), prefix)
            && Unvisited(longer) == Unvisited(below) + |ListingOf(path, tree, i + 1)|
  {
    hide *;
    PushOne(stack, (ChildPath(path, tree.contents[i].0), tree.contents[i].1), prefix);
    NextChild(path, tree, i, prefix);
  }

  lemma PushOne(stack: seq<(Bytes, FileTree)>, top: (Bytes, FileTree), prefix: Bytes)
    ensures Pending(stack + [top], prefix) == Pending(stack, prefix) + Share(Listing(top.0, top.1), prefix)
    ensures Unvisited(stack + [top]) == Unvisited(stack) + |Listing(top.0, top.1)|
  {
    assert (stack + [top])[..|stack|] == stack;
  }

  lemma PopOne(stack: seq<(Bytes, FileTree)>, prefix: Bytes)
    requires stack != []
    ensures var top := stack[|stack| - 1];
            var below := stack[..|stack| - 1];
            Pending(stack, prefix) == Pending(below, prefix) + Share(Listing(top.0, top.1), prefix)
            && Unvisited(stack) == Unvisited(below) + |Listing(top.0, top.1)|
  {
  }

  lemma NextChild(path: Bytes, tree: FileTree, i: nat, prefix: Bytes)
    requires tree.DirectoryTree? && i < |tree.contents|
    ensures var listed := Listing(ChildPath(path, tree.contents[i].0), tree.contents[i].1);
            Share(ListingOf(path, tree, i + 1), prefix) == Share(ListingOf(path, tree, i), prefix) + Share(listed, prefix)
            && |ListingOf(path, tree, i + 1)| == |ListingOf(path, tree, i)| + |listed|
  {
    var listed := Listing(ChildPath(path, tree.contents[i].0), tree.contents[i].1);
    FilteredConcat(ListingOf(path, tree, i), listed, prefix);
  }

  /** A node contributes itself when its path passes the filter, and then its children. */
  lemma ListingSplits(path: Bytes, tree: FileTree, prefix: Bytes)
    ensures var children := if tree.DirectoryTree? then ListingOf(path, tree, |tree.contents|) else [];
            var self := if StartsWith(path, prefix) then multiset{FileTreeEntry(path, tree.SplitContents().0)} else multiset{};
            Share(Listing(path, tree), prefix) == self + Share(children, prefix)
            && |Listing(path, tree)| == 1 + |children|
  {
    var head := [FileTreeEntry(path, tree.SplitContents().0)];
    var children := if tree.DirectoryTree? then ListingOf(path, tree, |tree.contents|) else [];
    FilteredConcat(head, children, prefix);
    assert head[1..] == [];
  }

  // ---------- metadata bytes ----------

  const DIGIT_ZERO: Byte := 48
  const PLUS: Byte := 43
  const TAG_EXECUTABLE: Byte := 120
  const TAG_REGULAR: Byte := 114
  const TAG_SYMLINK: Byte := 115
  const TAG_DIRECTORY: Byte := 100

  predicate IsDigit(b: Byte) {
    DIGIT_ZERO <= b < DIGIT_ZERO + 10
  }

  /** The shortest decimal form, as `format!("{size}")` prints it. */
  function Decimal(n: nat): (s: Bytes)
    ensures s != [] && forall b | b in s :: IsDigit(b)
  {
    if n < 10 then [DIGIT_ZERO + n] else Decimal(n / 10) + [DIGIT_ZERO + n % 10]
  }

  /** The value of a string of digits, or nothing when some byte is not a digit or it exceeds 64 bits. */
  function DigitsValue(s: Bytes): Option<U64> {
    if s == [] then Some(0)
    else
      var last: int := s[|s| - 1];
      match DigitsValue(s[..|s| - 1])
      case None => None
      case Some(high) =>
        var n: int := high * 10 + (last - DIGIT_ZERO);
        if IsDigit(s[|s| - 1]) && n < 0x1_0000_0000_0000_0000 then Some(n) else None
  }

  /** `str::parse::<u64>`: at least one digit, optionally after one plus sign. */
  function ParseU64(s: Bytes): Option<U64> {
    var digits := if s != [] && s[0] == PLUS then s[1..] else s;
    if digits == [] then None else DigitsValue(digits)
  }

  /** `encode_meta`: the size or the link target, followed by one tag byte. */
  function EncodeMeta(node: FileNode): Bytes {
    match node
    case Regular(size, executable) => Decimal(size) + [if executable then TAG_EXECUTABLE else TAG_REGULAR]
    case Symlink(target) => target + [TAG_SYMLINK]
    case Directory(size) => Decimal(size) + [TAG_DIRECTORY]
  }

  /** `decode_meta`. A size that is not UTF-8 is not a number either, so both fail alike. */
  function DecodeMeta(buf: Bytes): Option<FileNode> {
    if buf == [] then None
    else
      var kind, rest := buf[|buf| - 1], buf[..|buf| - 1];
      if kind == TAG_EXECUTABLE || kind == TAG_REGULAR then
        match ParseU64(rest)
        case Some(size) => Some(Regular(size, kind == TAG_EXECUTABLE))
        case None => None
      else if kind == TAG_SYMLINK then Some(Symlink(rest))
      else if kind == TAG_DIRECTORY then
        match ParseU64(rest)
        case Some(size) => Some(Directory(size))
        case None => None
      else None
  }

  lemma {:induction false} DecimalParses(n: U64)
    ensures DigitsValue(Decimal(n)) == Some(n)
  {
    var s := Decimal(n);
    if n < 10 {
      assert s[..0] == [];
    } else {
      DecimalParses(n / 10);
      assert s[..|s| - 1] == Decimal(n / 10);
    }
  }

  /** Decoding the printed metadata of any node gives the node back. */
  lemma MetaRoundTrip(node: FileNode)
    ensures DecodeMeta(EncodeMeta(node)) == Some(node)
  {
    var buf := EncodeMeta(node);
    match node
    case Symlink(target) => assert buf[..|buf| - 1] == target;
    case Regular(size, _) =>
      DecimalParses(size);
      assert buf[..|buf| - 1] == Decimal(size) && Decimal(size)[0] in Decimal(size);
    case Directory(size) =>
      DecimalParses(size);
      assert buf[..|buf| - 1] == Decimal(size) && Decimal(size)[0] in Decimal(size);
  }

  // ---------- what is read ----------

  /** A number as it may be written: digits of its decimal form, zeros before it, and one plus sign before these. */
  ghost predicate Numeral(s: Bytes, n: nat) {
    exists plus, zeros :: s == plus + zeros + Decimal(n) && (plus == [] || plus == [43]) && OnlyZeros(zeros)
  }

  predicate OnlyZeros(s: Bytes) {
    forall k | 0 <= k < |s| :: s[k] == 48
  }

  /** Bytes that stand for a node: a link target and `s`, or a size of 64 bits and `x`, `r` or `d`. */
  ghost predicate Denotes(meta: Bytes, node: FileNode) {
    meta != [] &&
    var tag, rest := meta[|meta| - 1], meta[..|meta| - 1];
    match node
    case Symlink(target) => tag == 115 && rest == target
    case Regular(size, executable) => tag == (if executable then 120 else 114) && Numeral(rest, size)
    case Directory(size) => tag == 100 && Numeral(rest, size)
  }

  lemma {:induction false} ZerosAreNothing(zeros: Bytes)
    requires OnlyZeros(zeros)
    ensures DigitsValue(zeros) == Some(0)
  {
    if zeros != [] {
      ZerosAreNothing(zeros[..|zeros| - 1]);
    }
  }

  lemma LastDigit(n: nat)
    ensures Decimal(n) == (if n < 10 then [] else Decimal(n / 10)) + [48 + n % 10]
  {
    if n < 10 {
      assert Decimal(n) == [] + [48 + n];
    }
  }

  lemma AddDigit(front: Bytes, high: U64, digit: nat)
    requires DigitsValue(front) == Some(high) && digit < 10 && high * 10 + digit < 0x1_0000_0000_0000_0000
    ensures DigitsValue(front + [48 + digit]) == Some(high * 10 + digit)
  {
    var s := front + [48 + digit];
    assert s[..|s| - 1] == front;
  }

  lemma {:induction false} ZerosThenDecimal(zeros: Bytes, n: U64)
    requires OnlyZeros(zeros)
    ensures DigitsValue(zeros + Decimal(n)) == Some(n)
    decreases n
  {
    hide DigitsValue, Decimal;
    LastDigit(n);
    if n < 10 {
      ZerosAreNothing(zeros);
      AddDigit(zeros, 0, n);
      assert [] + [48 + n] == [48 + n];
    } else {
      ZerosThenDecimal(zeros, n / 10);
      AddDigit(zeros + Decimal(n / 10), n / 10, n % 10);
      Assoc(zeros, Decimal(n / 10), [48 + n % 10]);
    }
  }

  /** The zeros in front of the decimal form of the value. */
  lemma {:induction false} DigitsAre(s: Bytes) returns (zeros: Bytes)
    requires s != [] && DigitsValue(s).Some?
    ensures OnlyZeros(zeros) && s == zeros + Decimal(DigitsValue(s).value)
  {
    var n: nat := DigitsValue(s).value;
    var front := s[..|s| - 1];
    assert s == front + [s[|s| - 1]];
    if front == [] {
      zeros := [];
    } else {
      var before := DigitsAre(front);
      zeros := if n < 10 then front else before;
      assert n / 10 == DigitsValue(front).value && s[|s| - 1] == DIGIT_ZERO + n % 10;
    }
  }

  lemma ParsedIsNumeral(s: Bytes, n: U64)
    requires ParseU64(s) == Some(n)
    ensures Numeral(s, n)
  {
    hide DigitsValue, Decimal;
    var digits := if s != [] && s[0] == PLUS then s[1..] else s;
    var zeros := DigitsAre(digits);
    var plus := s[..|s| - |digits|];
    assert s == plus + digits;
    Assoc(plus, zeros, Decimal(n));
  }

  lemma NumeralIsParsed(s: Bytes, n: U64, plus: Bytes, zeros: Bytes)
    requires s == plus + zeros + Decimal(n) && (plus == [] || plus == [43]) && OnlyZeros(zeros)
    ensures ParseU64(s) == Some(n)
  {
    hide DigitsValue, Decimal;
    var digits := zeros + Decimal(n);
    Assoc(plus, zeros, Decimal(n));
    assert digits[0] == (if zeros == [] then Decimal(n)[0] else zeros[0]) && Decimal(n)[0] in Decimal(n);
    assert digits[0] != PLUS;
    ZerosThenDecimal(zeros, n);
    if plus != [] {
      assert s[0] == PLUS && s[1..] == digits;
    } else {
      assert s == digits;
    }
  }

  /** A byte string is parsed as a number exactly when it is one of 64 bits. */
  lemma ParsesNumerals(s: Bytes, n: U64)
    ensures ParseU64(s) == Some(n) <==> Numeral(s, n)
  {
    hide ParseU64;
    if ParseU64(s) == Some(n) {
      ParsedIsNumeral(s, n);
    }
    if plus, zeros :| s == plus + zeros + Decimal(n) && (plus == [] || plus == [43]) && OnlyZeros(zeros) {
      NumeralIsParsed(s, n, plus, zeros);
    }
  }

  /** Metadata is decoded exactly to what it stands for. */
  lemma DecodesExactly(meta: Bytes, node: FileNode)
    ensures DecodeMeta(meta) == Some(node) <==> Denotes(meta, node)
  {
    if meta != [] {
      var rest := meta[..|meta| - 1];
      match node
      case Symlink(_) =>
      case Regular(size, _) => ParsesNumerals(rest, size);
      case Directory(size) => ParsesNumerals(rest, size);
    }
  }

  // ---------- entries ----------

  /** `is_encodable`: neither the path nor a link target holds a byte that the stream format reserves. */
  predicate IsEncodable(entry: FileTreeEntry) {
    Clean(entry.path) && (entry.node.Symlink? ==> Clean(entry.node.target))
  }

  /** `FileTreeEntry::decode`: split a decoded line at its first NUL. */
  function DecodeEntry(line: Bytes): Option<FileTreeEntry> {
    var sep := IndexOf(line, NUL);
    if sep == |line| then None
    else match DecodeMeta(line[..sep])
      case None => None
      case Some(node) => Some(FileTreeEntry(line[sep + 1..], node))
  }

  /** A line of an entry: bytes that stand for its node, a zero byte and its path. */
  ghost predicate IsEntryLine(line: Bytes, entry: FileTreeEntry) {
    exists meta :: NUL !in meta && line == meta + [0] + entry.path && Denotes(meta, entry.node)
  }

  /** A line is decoded exactly to the entry whose line it is. */
  lemma DecodesEntries(line: Bytes, entry: FileTreeEntry)
    ensures DecodeEntry(line) == Some(entry) <==> IsEntryLine(line, entry)
  {
    hide Denotes, DecodeMeta;
    var sep := IndexOf(line, NUL);
    if sep < |line| {
      DecodesExactly(line[..sep], entry.node);
      assert line == line[..sep] + [0] + line[sep + 1..];
    }
    if meta :| NUL !in meta && line == meta + [0] + entry.path && Denotes(meta, entry.node) {
      assert line[|meta|] == NUL && meta == line[..|meta|];
      IndexOfIs(line, NUL, |meta|);
      assert line[sep + 1..] == entry.path;
    }
  }

  /** An encodable entry has clean metadata that never reads as a package footer. */
  lemma MetaIsClean(entry: FileTreeEntry)
    requires IsEncodable(entry)
    ensures Clean(EncodeMeta(entry.node))
    ensures EncodeMeta(entry.node) != [112]
  {
    var meta := EncodeMeta(entry.node);
    assert meta[|meta| - 1] != 112;
  }

  /** Decoding the line of an encodable entry gives the entry back. */
  lemma EntryRoundTrip(entry: FileTreeEntry)
    requires IsEncodable(entry)
    ensures DecodeEntry(EncodeMeta(entry.node) + [NUL] + entry.path) == Some(entry)
  {
    var meta := EncodeMeta(entry.node);
    var line := meta + [NUL] + entry.path;
    MetaIsClean(entry);
    MetaRoundTrip(entry.node);
    assert line[..|meta|] == meta;
    assert line[|meta| + 1..] == entry.path;
    IndexOfIs(line, NUL, |meta|);
  }
}
