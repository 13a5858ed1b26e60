/** The encoder: it remembers the last path and how much of it the last entry shared. */
module FrcodeEncoder {
  import opened Wrappers
  import opened Bytes
  import opened FrcodeFormat

  class Encoder {
    var written: Bytes
    var last: Bytes
    var sharedLen: int
    const footer: Entry
    var footerWritten: bool

    /** The shared length never leaves the non-negative 16-bit range. */
    ghost predicate Valid()
      reads this
    {
      0 <= sharedLen <= I16_MAX
    }

    constructor (footer: Entry)
      ensures Valid() && this.footer == footer && !footerWritten
      ensures written == [] && last == [] && sharedLen == 0
    {
      this.footer := footer;
      written, last, sharedLen, footerWritten := [], [], 0, false;
    }

    static method Create(footer: Entry) returns (r: Result<Encoder, Error>)
      ensures r.Ok? <==> CleanEntry(footer)
      ensures r.Err? ==> r.error == ForbiddenByte
      ensures r.Ok? ==> fresh(r.value) && r.value.Valid() && r.value.footer == footer && !r.value.footerWritten
                        && r.value.written == [] && r.value.last == [] && r.value.sharedLen == 0
    {
      if !Clean(footer.meta) || !Clean(footer.path) {
        return Err(ForbiddenByte);
      }
      var encoder := new Encoder(footer);
      return Ok(encoder);
    }

    method EncodeDiff(diff: int)
      requires -I16_MAX <= diff <= I16_MAX
      modifies this`written
      ensures written == old(written) + DiffBytes(diff)
    {
      var word := if diff < 0 then diff + 0x1_0000 else diff;
      assert word == diff % 0x1_0000;
      var low, high := word % 256, word / 256;
      if (if diff < 0 then -diff else diff) < 127 {
        written := written + [low];
      } else {
        written := written + [EXTENDED, high, low];
      }
    }

    method WriteMeta(meta: Bytes) returns (r: Result<(), Error>)
      modifies this`written
      ensures r == if Clean(meta) then Ok(()) else Err(ForbiddenByte)
      ensures written == if Clean(meta) then old(written) + meta else old(written)
    {
      if !Clean(meta) {
        return Err(ForbiddenByte);
      }
      written := written + meta;
      return Ok(());
    }

    /** Finish an entry: NUL, the change of the shared length, the rest of the path, a newline. */
    method WritePath(path: Bytes) returns (r: Result<(), Error>)
      requires Valid()
      modifies this
      ensures Valid() && footerWritten == old(footerWritten)
      ensures r == if Clean(path) then Ok(()) else Err(ForbiddenByte)
      ensures r.Err? ==> written == old(written) && last == old(last) && sharedLen == old(sharedLen)
      ensures r.Ok? ==> last == path && sharedLen == SharedLen(old(last), path)
      ensures r.Ok? ==> written == old(written) + [NUL] + DiffBytes(sharedLen - old(sharedLen)) + path[sharedLen..] + [NEWLINE]
    {
      if !Clean(path) {
        return Err(ForbiddenByte);
      }
      written := written + [NUL];
      var shared := CommonLen(last, path);
      EncodeDiff(shared - sharedLen);
      last := path;
      sharedLen := shared;
      written := written + path[shared..];
      written := written + [NEWLINE];
      return Ok(());
    }

    /** Count equal leading bytes, stopping at the largest 16-bit integer. */
    static method CommonLen(last: Bytes, path: Bytes) returns (shared: nat)
      ensures shared == SharedLen(last, path)
    {
      shared := 0;
      while shared < |last| && shared < |path|
        invariant shared <= I16_MAX && shared <= |last| && shared <= |path| && last[..shared] == path[..shared]
        invariant SharedFrom(last, path, 0) == SharedFrom(last, path, shared)
      {
        if last[shared] != path[shared] || shared == I16_MAX {
          break;
        }
        assert last[..shared + 1] == last[..shared] + [last[shared]];
        assert path[..shared + 1] == path[..shared] + [path[shared]];
        shared := shared + 1;
      }
    }

    method WriteFooter()
      requires Valid()
      modifies this
      ensures Valid() && footerWritten && last == old(last) && sharedLen == old(sharedLen)
      ensures written == if old(footerWritten) then old(written) else old(written) + Printed(footer, sharedLen, 0)
    {
      if footerWritten {
        return;
      }
      written := written + footer.meta;
      written := written + [NUL];
      EncodeDiff(-sharedLen);
      written := written + footer.path;
      written := written + [NEWLINE];
      footerWritten := true;
      assert footer.path[0..] == footer.path;
      Regroup(old(written), footer.meta, DiffBytes(-sharedLen), footer.path);
    }
  }

  lemma Regroup(before: Bytes, meta: Bytes, diff: Bytes, rest: Bytes)
    ensures before + meta + [NUL] + diff + rest + [NEWLINE] == before + (meta + [NUL] + diff + rest + [NEWLINE])
  {
    Assoc5(before + meta, [NUL], diff, rest, [NEWLINE]);
    Assoc5(meta, [NUL], diff, rest, [NEWLINE]);
    Assoc(before, meta, [NUL] + diff + rest + [NEWLINE]);
  }

  /** Metadata, then path: one printed entry, or a report of a forbidden byte. */
  method EncodeEntry(encoder: Encoder, entry: Entry) returns (r: Result<(), Error>)
    requires encoder.Valid()
    modifies encoder
    ensures encoder.Valid() && encoder.footerWritten == old(encoder.footerWritten)
    ensures r == if CleanEntry(entry) then Ok(()) else Err(ForbiddenByte)
    ensures r.Ok? ==>
      var shared := SharedLen(old(encoder.last), entry.path);
      && encoder.written == old(encoder.written) + Printed(entry, old(encoder.sharedLen), shared)
      && encoder.last == entry.path && encoder.sharedLen == shared
  {
    ghost var before, shared := encoder.written, encoder.sharedLen;
    r := encoder.WriteMeta(entry.meta);
    if r.Ok? {
      r := encoder.WritePath(entry.path);
      if r.Ok? {
        Regroup(before, entry.meta, DiffBytes(encoder.sharedLen - shared), entry.path[encoder.sharedLen..]);
      }
    }
  }

  /**
   * How a package is added to the database: one encoder, metadata and path of every entry, then the
   * footer. A forbidden byte anywhere is reported; otherwise the bytes are the printed package.
   */
  method EncodePackage(package: Package) returns (r: Result<Bytes, Error>)
    ensures r == if CleanPackage(package) then Ok(PrintedPackage(package)) else Err(ForbiddenByte)
  {
    var created := Encoder.Create(package.footer);
    if created.Err? {
      return Err(created.error);
    }
    var encoder := created.value;
    var entries, i := package.entries, 0;
    assert entries[0..] == entries;
    while i < |entries|
      invariant i <= |entries|
      invariant fresh(encoder) && encoder.Valid() && !encoder.footerWritten && encoder.footer == package.footer
      invariant forall k | 0 <= k < i :: CleanEntry(entries[k])
      invariant encoder.written + PrintedFrom(encoder.last, encoder.sharedLen, entries[i..], package.footer)
             == PrintedPackage(package)
    {
      ghost var before, shared := encoder.written, encoder.sharedLen;
      var encoded := EncodeEntry(encoder, entries[i]);
      if encoded.Err? {
        assert entries[i] in entries;
        return Err(encoded.error);
      }
      assert entries[i..][1..] == entries[i + 1..];
      Assoc(before, Printed(entries[i], shared, encoder.sharedLen),
            PrintedFrom(encoder.last, encoder.sharedLen, entries[i + 1..], package.footer));
      i := i + 1;
    }
    encoder.WriteFooter();
    assert entries[|entries|..] == [];
    return Ok(encoder.written);
  }
}
