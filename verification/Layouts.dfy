/** The bytes of every format, spelled out: what a reader of another version must find there. */
module Layouts {
  import opened Wrappers
  import opened Bytes
  import opened Files
  import opened FrcodeFormat
  import opened FrameWriter
  import opened SeekTable
  import opened StorePaths
  import opened SearchSpec
  import opened PackageSearch
  import opened PathTableFile
  import FrameMapFile
  import BasenameIndex
  import CommandIndex
  import EntryIndex
  import Ngrams
  import PathIndex
  import Postings
  import Trigrams
  import Blobs
  import LiteralSearch
  import NgramCache
  import Segments
  import Prebuilt
  import D = Database

  /** Words are little-endian. */
  lemma WordLayout(n: U32)
    ensures |U32Le(n)| == 4
    ensures var b0: int, b1: int, b2: int, b3: int := U32Le(n)[0], U32Le(n)[1], U32Le(n)[2], U32Le(n)[3];
            n == b0 + 0x100 * b1 + 0x1_0000 * b2 + 0x100_0000 * b3
  {
  }

  /** Differentials are one signed byte, or 0x80 and a signed big-endian word of two bytes. */
  lemma DiffLayout(diff: int)
    requires -32767 <= diff <= 32767
    ensures var b := DiffBytes(diff);
            if -127 < diff < 127 then |b| == 1 && b[0] == (if diff >= 0 then diff else 256 + diff)
            else |b| == 3 && b[0] == 0x80 && var high: int := b[1]; 256 * high + b[2] == if diff >= 0 then diff else 0x1_0000 + diff
  {
    if diff < 0 {
      assert diff % 0x1_0000 == 0x1_0000 + diff;
    }
  }

  /** They are read from the front of any bytes, the word as a signed one of 16 bits; only too few bytes are no differential. */
  lemma DiffReadLayout(s: Bytes)
    ensures match ReadDiff(s)
            case None => s == [] || (s[0] == 0x80 && |s| < 3)
            case Some((diff, n)) =>
              && n <= |s|
              && if s[0] == 0x80 then n == 3 && -32768 <= diff < 32768 && var high: int := s[1]; (diff - (256 * high + s[2])) % 0x1_0000 == 0
                 else n == 1 && -128 <= diff < 128 && (diff - s[0]) % 256 == 0
  {
  }

  /** The shared length counts equal bytes up to the first difference, and never beyond 32767. */
  lemma SharedLayout(last: Bytes, path: Bytes)
    ensures var n := SharedLen(last, path);
            && n <= |last| && n <= |path| && n <= 32767 && (forall k | 0 <= k < n :: last[k] == path[k])
            && (n < |last| && n < |path| && n < 32767 ==> last[n] != path[n])
  {
    var n := SharedLen(last, path);
    assert forall k | 0 <= k < n :: last[..n][k] == path[..n][k];
  }

  /** An entry is its metadata, a zero byte, its path and a newline; printed, the differential stands before the unshared path. */
  lemma LineLayout(meta: Bytes, path: Bytes, before: nat, shared: nat)
    requires before <= 32767 && shared <= 32767 && shared <= |path|
    ensures Line(Entry(meta, path)) == meta + [0] + path + [10]
    ensures Printed(Entry(meta, path), before, shared) == meta + [0] + DiffBytes(shared - before) + path[shared..] + [10]
  {
  }

  /** The footer of a package is `p`, a zero byte, the JSON of its store path and a newline; it shares nothing. */
  lemma FooterLayout(store: StorePath, json: Bytes)
    ensures PrintedPackage(ToPackage(Stored(store, json, []))) == [112, 0, 0] + json + [10]
  {
    var p := ToPackage(Stored(store, json, []));
    assert p == Package([], Entry([112], json)) && json[0..] == json;
    assert DiffBytes(0) == [0];
  }

  /** Metadata is a decimal size and `x`, `r` or `d`, or a link target and `s`. */
  lemma MetaLayout(target: Bytes)
    ensures EncodeMeta(Symlink(target)) == target + [115]
    ensures EncodeMeta(Regular(0, true)) == [48, 120] && EncodeMeta(Regular(7, false)) == [55, 114]
    ensures EncodeMeta(Regular(604, true)) == [54, 48, 52, 120]
    ensures EncodeMeta(Directory(19)) == [49, 57, 100]
  {
    hide Decimal;
    SomeDecimals();
  }

  lemma SomeDecimals()
    ensures Decimal(0) == [48] && Decimal(7) == [55] && Decimal(604) == [54, 48, 52] && Decimal(19) == [49, 57]
  {
    hide Decimal;
    LastDigit(0);
    LastDigit(7);
    LastDigit(6);
    LastDigit(1);
    assert Decimal(60) == [54, 48] by { LastDigit(60); }
    assert Decimal(604) == [54, 48, 52] by { LastDigit(604); }
    assert Decimal(19) == [49, 57] by { LastDigit(19); }
  }

  /** `NIXI` and the version as eight little-endian bytes. */
  lemma HeaderLayout()
    ensures D.Header(1) == [78, 73, 88, 73, 1, 0, 0, 0, 0, 0, 0, 0]
    ensures D.Header(2) == [78, 73, 88, 73, 2, 0, 0, 0, 0, 0, 0, 0]
  {
  }

  /** Four words, one behind the other. */
  lemma FourWords(a: U32, b: U32, c: U32, d: U32)
    ensures Words([a, b, c, d]) == U32Le(a) + U32Le(b) + U32Le(c) + U32Le(d)
  {
    hide U32Le;
    var one: seq<U32>, two: seq<U32>, three: seq<U32>, four: seq<U32> := [a], [a, b], [a, b, c], [a, b, c, d];
    assert one[..0] == [] && two[..1] == one && three[..2] == two && four[..3] == three;
    assert Words(one) == U32Le(a) && Words(two) == Words(one) + U32Le(b) && Words(three) == Words(two) + U32Le(c);
  }

  /** The seek table of one frame of 258 bytes: a skippable frame of twelve bytes of payload. */
  lemma SeekTableLayout()
    ensures SeekTable.Table([258]) == [0x50, 0x2A, 0x4D, 0x18, 12, 0, 0, 0, 1, 0, 0, 0, 2, 1, 0, 0, 12, 0, 0, 0]
  {
    var words := TableWords([258]);
    assert words == [0x184D_2A50, 12, 1, 258, 12];
    assert words[..4] == [0x184D_2A50, 12, 1, 258];
    FourWords(0x184D_2A50, 12, 1, 258);
    assert U32Le(0x184D_2A50) == [0x50, 0x2A, 0x4D, 0x18] && U32Le(258) == [2, 1, 0, 0] && U32Le(12) == [12, 0, 0, 0] && U32Le(1) == [1, 0, 0, 0];
  }

  /** `NFRM`, the version, the number of packages, the number of frames, and the frame of each package. */
  lemma FrameMapLayout()
    ensures FrameMapFile.MapFile([5], 6) == [78, 70, 82, 77, 1, 0, 0, 0, 1, 0, 0, 0, 6, 0, 0, 0, 5, 0, 0, 0]
  {
    assert [1, 1, 6] + [5] == [1, 1, 6, 5];
    FourWords(1, 1, 6, 5);
    assert U32Le(1) == [1, 0, 0, 0] && U32Le(5) == [5, 0, 0, 0] && U32Le(6) == [6, 0, 0, 0];
  }

  /** `NPKG`, the version, the number of names, and each name behind its length. */
  lemma NamesLayout()
    ensures BasenameIndex.NamesFile([[97, 98]]) == [78, 80, 75, 71, 1, 0, 0, 0, 1, 0, 0, 0, 2, 0, 0, 0, 97, 98]
  {
    assert [[97, 98]][..0] == [];
    assert U32Le(1) == [1, 0, 0, 0] && U32Le(2) == [2, 0, 0, 0];
  }

  /** `NCMD`, the version, the number of providers, and of each its labels behind their lengths and its flag. */
  lemma ProvidersLayout()
    ensures CommandIndex.ProviderFile([CommandIndex.Provider([97], [111, 117], true)])
         == [78, 67, 77, 68, 1, 0, 0, 0, 1, 0, 0, 0, 1, 0, 0, 0, 97, 2, 0, 0, 0, 111, 117, 1]
  {
    var p := CommandIndex.Provider([97], [111, 117], true);
    var rows := CommandIndex.Rows([p]);
    assert rows == [CommandIndex.PrintedProvider(p)] && rows[..0] == [];
    assert U32Le(1) == [1, 0, 0, 0] && U32Le(2) == [2, 0, 0, 0];
  }

  /** A posting list is its length and its ids. */
  lemma PostingLayout(raw: Bytes, at: nat)
    ensures Postings.RecordAt(raw, at, [7, 258]) <==> at + 12 <= |raw| && raw[at..at + 12] == [2, 0, 0, 0, 7, 0, 0, 0, 2, 1, 0, 0]
  {
    hide U32Le, ReadU32Le;
    var ids: seq<U32> := [7, 258];
    var words: seq<U32> := [2] + ids;
    assert words == [2, 7, 258] && words[0] == 2 && words[1..] == ids;
    if at + 12 <= |raw| {
      ReadsWords(raw, at, words);
      ThreeWords(2, 7, 258);
      SmallWords();
      assert ReadsAs(raw, at, words) <==> ReadU32Le(raw, at) == Some(2) && ReadsAs(raw, at + 4, ids) by {
        HeadThenRest(raw, at, words);
      }
    }
  }

  lemma SmallWords()
    ensures U32Le(1) == [1, 0, 0, 0] && U32Le(2) == [2, 0, 0, 0] && U32Le(7) == [7, 0, 0, 0] && U32Le(258) == [2, 1, 0, 0]
  {
  }

  lemma ThreeWords(a: U32, b: U32, c: U32)
    ensures Words([a, b, c]) == U32Le(a) + U32Le(b) + U32Le(c)
  {
    hide U32Le;
    var one: seq<U32>, two: seq<U32>, three: seq<U32> := [a], [a, b], [a, b, c];
    assert one[..0] == [] && two[..1] == one && three[..2] == two;
    assert Words(one) == U32Le(a) && Words(two) == Words(one) + U32Le(b);
  }

  lemma HeadThenRest(raw: Bytes, at: nat, words: seq<U32>)
    requires words != []
    ensures ReadsAs(raw, at, words) <==> ReadU32Le(raw, at) == Some(words[0]) && ReadsAs(raw, at + 4, words[1..])
  {
    hide ReadU32Le;
    var rest := words[1..];
    assert forall i | 0 <= i < |rest| :: rest[i] == words[i + 1] && at + 4 + 4 * i == at + 4 * (i + 1);
    if ReadU32Le(raw, at) == Some(words[0]) && ReadsAs(raw, at + 4, rest) {
      forall i | 0 <= i < |words| ensures ReadU32Le(raw, at + 4 * i) == Some(words[i]) {
        if i > 0 {
          assert words[i] == rest[i - 1] && at + 4 * i == at + 4 + 4 * (i - 1);
        }
      }
    }
  }

  /** A serialized value stands behind its length. */
  lemma BlobLayout(before: Bytes, after: Bytes)
    ensures Blobs.BlobAt(before + [2, 0, 0, 0, 9, 8] + after, |before|, Blobs.Serializer((x: Bytes) => x, (x: Bytes) => Some(x))) == Some([9, 8])
  {
    var raw := before + [2, 0, 0, 0, 9, 8] + after;
    assert raw[|before|..|before| + 4] == [2, 0, 0, 0] == U32Le(2);
    U32RoundTrip(raw, |before|, 2);
    assert raw[|before| + 4..|before| + 6] == [9, 8];
  }

  /** The tables of one path with a blob of two bytes: start and end of the blob, the path and a zero byte, and the start of the path. */
  lemma PathTableLayout(body: Bytes)
    ensures EntriesFile([20, 22], 1, body) == [78, 78, 80, 69, 1, 0, 0, 0, 1, 0, 0, 0, 20, 0, 0, 0, 22, 0, 0, 0] + body
    ensures OffsetsFile([0], 1) == [78, 78, 79, 70, 1, 0, 0, 0, 1, 0, 0, 0, 0, 0, 0, 0]
    ensures Terminated([[47, 97]]) == [47, 97, 0]
    ensures BlobStart([[9, 8]], 0) == 20 && BlobStart([[9, 8]], 1) == 22
  {
    assert [1, 1] + [20, 22] == [1, 1, 20, 22] && [1, 1] + [0] == [1, 1, 0];
    FourWords(1, 1, 20, 22);
    ThreeWords(1, 1, 0);
    assert U32Le(1) == [1, 0, 0, 0] && U32Le(20) == [20, 0, 0, 0] && U32Le(22) == [22, 0, 0, 0] && U32Le(0) == [0, 0, 0, 0];
    assert [[47, 97]][..0] == [] && [[9, 8]][..0] == [] && [[9, 8]][..1] == [[9, 8]];
  }

  /** The caps that files and lookups are held to. */
  lemma Caps()
    ensures MAX_FRAME_COUNT == 1048576 && SearchSpec.MAX_ORDINAL == 4294967295
    ensures BasenameIndex.MAX_NAME_COUNT == 2_000_000 && BasenameIndex.MAX_NAME_BYTES == 65536
    ensures BasenameIndex.MAX_ORDINALS_PER_BASENAME == 1_000_000 && PathIndex.MAX_ORDINALS_PER_PATH == 1_000_000
    ensures CommandIndex.MAX_LABEL_BYTES == 65536 && CommandIndex.MAX_PROVIDER_COUNT == 2_000_000
    ensures CommandIndex.MAX_PROVIDERS_PER_COMMAND == 1_000_000 && CommandIndex.MAX_COMMAND_COUNT == 4_000_000
    ensures Trigrams.MAX_IDS_PER_TRIGRAM == 20_000_000 && MAX_BLOB_BYTES == 268435456 && Blobs.MAX_SERIALIZED_BYTES == 268435456
    ensures LiteralSearch.CANDIDATE_LIMIT == 100_000 && NgramCache.NGRAM_CACHE_CAPACITY == 256
    ensures Segments.MIN_SEGMENT_BYTES == 1048576 && Prebuilt.MAX_SEGMENT_ATTEMPTS == 3
  {
  }

  /** The magic numbers and versions in front of the other sidecars. */
  lemma SidecarHeads()
    ensures BasenameIndex.BASENAME_MAGIC + U32Le(BasenameIndex.BASENAME_VERSION) == [78, 66, 80, 79, 1, 0, 0, 0]
    ensures CommandIndex.COMMAND_MAGIC + U32Le(CommandIndex.COMMAND_VERSION) == [78, 67, 80, 79, 1, 0, 0, 0]
    ensures EntryIndex.ENTRY_MAGIC + U32Le(EntryIndex.ENTRY_VERSION) == [78, 66, 69, 78, 1, 0, 0, 0]
    ensures Ngrams.NGRAM_MAGIC + U32Le(Ngrams.NGRAM_VERSION) == [78, 78, 80, 79, 2, 0, 0, 0]
    ensures PathIndex.PATH_MAGIC + U32Le(PathIndex.PATH_VERSION) == [78, 80, 80, 79, 1, 0, 0, 0]
    ensures Trigrams.PATH_TRIGRAM_MAGIC + U32Le(Trigrams.PATH_TRIGRAM_VERSION) == [78, 78, 80, 84, 1, 0, 0, 0]
    ensures ENTRIES_MAGIC + U32Le(SIDE_VERSION) == [78, 78, 80, 69, 1, 0, 0, 0]
    ensures STRINGS_MAGIC + U32Le(SIDE_VERSION) == [78, 78, 80, 83, 1, 0, 0, 0]
    ensures OFFSETS_MAGIC + U32Le(SIDE_VERSION) == [78, 78, 79, 70, 1, 0, 0, 0]
  {
    assert U32Le(1) == [1, 0, 0, 0] && U32Le(2) == [2, 0, 0, 0];
  }
}
