/** What the encoder prints is regular and stands for exactly the lines it was given. */
module FrcodeRoundTrip {
  import opened Wrappers
  import opened Bytes
  import opened FrcodeFormat

  /** The reader's state right after it has repeated the shared prefix of `entry`. */
  function At(before: Bytes, entry: Entry, shared: nat, tail: Bytes): Stream
    requires shared <= |entry.path|
  {
    Stream(before + entry.meta + [NUL] + entry.path[..shared], |before| + |entry.meta| + 1, shared,
           entry.path[shared..] + [NEWLINE] + tail)
  }

  /** Reading on from `s` comes to the same as reading on from `t`. */
  ghost predicate LeadsTo(s: Stream, t: Stream) {
    s.lastPath <= |s.text| && t.lastPath <= |t.text| && Expand(s) == Expand(t) && (Regular(t) ==> Regular(s))
  }

  lemma InsideAt(before: Bytes, entry: Entry, shared: nat, tail: Bytes)
    requires CleanEntry(entry) && shared <= |entry.path|
    ensures InsideEntry(At(before, entry, shared, tail))
  {
    var s := At(before, entry, shared, tail);
    assert s.text[s.lastPath..] == entry.path[..shared];
  }

  lemma ChunkIs(s: Stream, head: Bytes, rest: Bytes)
    requires NUL !in head && s.input == head + [NUL] + rest
    ensures NUL in s.input && IndexOf(s.input, NUL) == |head|
    ensures TakeChunk(s) == s.(text := s.text + (head + [NUL]), input := rest)
  {
    assert s.input[|head|] == NUL && s.input[..|head|] == head;
    IndexOfIs(s.input, NUL, |head|);
    assert s.input[..|head| + 1] == head + [NUL];
    assert s.input[|head| + 1..] == rest;
  }

  lemma DiffIs(s: Stream, diff: Bytes, change: int, after: Bytes)
    requires s.input == diff + after && ReadDiff(diff + after) == Some((change, |diff|))
    requires 0 <= s.shared + change <= I16_MAX
    ensures TakeDiff(s) == Ok(s.(shared := s.shared + change, input := after))
  {
    assert s.input[|diff|..] == after;
  }

  lemma NextIs(s: Stream)
    requires s.lastPath <= |s.text| && NUL in s.input && TakeDiff(TakeChunk(s)).Ok?
    ensures NextEntry(s) == CopyShared(TakeDiff(TakeChunk(s)).value)
  {
  }

  /** One entry boundary, with the input already cut into its parts. */
  lemma BoundaryIs(s: Stream, head: Bytes, diff: Bytes, change: int, after: Bytes, text: Bytes, copied: Bytes)
    requires NUL !in head && s.input == head + [NUL] + (diff + after)
    requires ReadDiff(diff + after) == Some((change, |diff|))
    requires text == s.text + (head + [NUL])
    requires 0 <= s.shared + change <= I16_MAX
    requires s.lastPath + (s.shared + change) <= |text|
    requires text[s.lastPath..s.lastPath + (s.shared + change)] == copied
    ensures NUL in s.input && IndexOf(s.input, NUL) == |head|
    ensures s.lastPath <= |s.text| ==> NextEntry(s) == Ok(Stream(text + copied, |text|, s.shared + change, after))
  {
    hide *;
    ChunkIs(s, head, diff + after);
    DiffIs(TakeChunk(s), diff, change, after);
    if s.lastPath <= |s.text| {
      CopyIs(s.(text := text, shared := s.shared + change, input := after), copied);
      NextIs(s);
    }
  }

  lemma CopyIs(s: Stream, copied: Bytes)
    requires s.lastPath <= |s.text| && 0 <= s.shared && s.lastPath + s.shared <= |s.text|
    requires s.text[s.lastPath..s.lastPath + s.shared] == copied
    ensures CopyShared(s) == Ok(s.(text := s.text + copied, lastPath := |s.text|))
  {
  }

  /** The text after the chunk that ends an entry: its whole line, then the next metadata. */
  lemma ChunkText(before: Bytes, entry: Entry, shared: nat, meta: Bytes)
    requires shared <= |entry.path|
    ensures before + entry.meta + [NUL] + entry.path[..shared] + (entry.path[shared..] + [NEWLINE] + meta + [NUL])
         == before + Line(entry) + meta + [NUL]
  {
    var x, p, q := before + entry.meta + [NUL], entry.path[..shared], entry.path[shared..];
    assert p + q == entry.path;
    Assoc5(x + p, q, [NEWLINE], meta, [NUL]);
    Assoc(x, p, q);
    Assoc5(before, entry.meta, [NUL], entry.path, [NEWLINE]);
  }

  lemma ChunkInput(entry: Entry, shared: nat, next: Entry, nextShared: nat, tail: Bytes)
    requires shared <= I16_MAX && shared <= |entry.path| && nextShared <= I16_MAX && nextShared <= |next.path|
    ensures entry.path[shared..] + [NEWLINE] + (Printed(next, shared, nextShared) + tail)
         == entry.path[shared..] + [NEWLINE] + next.meta + [NUL]
            + (DiffBytes(nextShared - shared) + (next.path[nextShared..] + [NEWLINE] + tail))
  {
    var q, diff, rest := entry.path[shared..] + [NEWLINE], DiffBytes(nextShared - shared), next.path[nextShared..];
    RegroupPrinted(q, next.meta, diff, rest, tail);
  }

  lemma RegroupPrinted(q: Bytes, meta: Bytes, diff: Bytes, rest: Bytes, tail: Bytes)
    ensures q + (meta + [NUL] + diff + rest + [NEWLINE] + tail)
         == q + meta + [NUL] + (diff + (rest + [NEWLINE] + tail))
  {
    Assoc4(diff, rest, [NEWLINE], tail);
    Assoc5(meta + [NUL], diff, rest, [NEWLINE], tail);
    Assoc4(q, meta, [NUL], diff + (rest + [NEWLINE] + tail));
  }

  /** From one entry to the next: the repeated prefix is the prefix of the next path. */
  lemma CleanParts(entry: Entry, next: Entry)
    requires CleanEntry(entry) && CleanEntry(next)
    ensures NUL !in entry.path && NUL !in next.meta
  {
  }

  lemma NoNulInChunk(entry: Entry, shared: nat, meta: Bytes)
    requires shared <= |entry.path| && NUL !in entry.path && NUL !in meta
    ensures NUL !in entry.path[shared..] + [NEWLINE] + meta
  {
  }

  lemma BoundaryAt(before: Bytes, entry: Entry, shared: nat, next: Entry, nextShared: nat, tail: Bytes)
    requires CleanEntry(entry) && CleanEntry(next)
    requires shared <= I16_MAX && shared <= |entry.path|
    requires nextShared <= I16_MAX && nextShared <= |entry.path| && nextShared <= |next.path|
    requires entry.path[..nextShared] == next.path[..nextShared]
    ensures var s := At(before, entry, shared, Printed(next, shared, nextShared) + tail);
            var text := before + Line(entry) + next.meta + [NUL];
            && NUL in s.input
            && IndexOf(s.input, NUL) == |entry.path| - shared + 1 + |next.meta|
            && NextEntry(s) == Ok(Stream(text + next.path[..nextShared], |text|, nextShared,
                                         next.path[nextShared..] + [NEWLINE] + tail))
  {
    hide ReadDiff, DiffBytes, NextEntry, Line, Printed, CleanEntry;
    var s := At(before, entry, shared, Printed(next, shared, nextShared) + tail);
    var head := entry.path[shared..] + [NEWLINE] + next.meta;
    var diff := DiffBytes(nextShared - shared);
    var after := next.path[nextShared..] + [NEWLINE] + tail;
    var text := before + Line(entry) + next.meta + [NUL];
    DiffRoundTrip(nextShared - shared, after);
    NoNulInChunk(entry, shared, next.meta) by { CleanParts(entry, next); }
    ChunkInput(entry, shared, next, nextShared, tail);
    ChunkText(before, entry, shared, next.meta);
    PathInText(before, entry, next.meta, nextShared);
    BoundaryIs(s, head, diff, nextShared - shared, after, text, next.path[..nextShared]);
  }

  lemma NextAt(before: Bytes, entry: Entry, shared: nat, next: Entry, nextShared: nat, tail: Bytes)
    requires CleanEntry(entry) && CleanEntry(next)
    requires shared <= I16_MAX && shared <= |entry.path|
    requires nextShared <= I16_MAX && nextShared <= |entry.path| && nextShared <= |next.path|
    requires entry.path[..nextShared] == next.path[..nextShared]
    ensures var s := At(before, entry, shared, Printed(next, shared, nextShared) + tail);
            var t := At(before + Line(entry), next, nextShared, tail);
            LeadsTo(s, t)
  {
    var s := At(before, entry, shared, Printed(next, shared, nextShared) + tail);
    InsideAt(before, entry, shared, Printed(next, shared, nextShared) + tail);
    BoundaryAt(before, entry, shared, next, nextShared, tail);
    var text := before + Line(entry) + next.meta + [NUL];
    assert At(before + Line(entry), next, nextShared, tail)
        == Stream(text + next.path[..nextShared], |text|, nextShared, next.path[nextShared..] + [NEWLINE] + tail);
    assert s.input[|entry.path| - shared] == NEWLINE;
  }

  lemma PathInText(before: Bytes, entry: Entry, meta: Bytes, n: nat)
    requires n <= |entry.path|
    ensures var text := before + Line(entry) + meta + [NUL];
            var start := |before| + |entry.meta| + 1;
            start + n <= |text| && text[start..start + n] == entry.path[..n]
  {
    var start := |before| + |entry.meta| + 1;
    var text := before + Line(entry) + meta + [NUL];
    forall i | 0 <= i < n
      ensures text[start + i] == entry.path[i]
    {
      assert Line(entry)[|entry.meta| + 1 + i] == entry.path[i];
    }
  }

  /**
   * Reading through a package's entries ends at its footer. The printer compares with `last`, which
   * is the previous path, or empty when a new package begins.
   */
  lemma {:induction false} EntriesAt(
    before: Bytes, entry: Entry, shared: nat, last: Bytes, entries: seq<Entry>, footer: Entry, tail: Bytes)
    requires CleanEntry(entry) && CleanEntry(footer) && forall e | e in entries :: CleanEntry(e)
    requires shared <= I16_MAX && shared <= |entry.path| && (last == entry.path || last == [])
    ensures LeadsTo(At(before, entry, shared, PrintedFrom(last, shared, entries, footer) + tail),
                    At(before + Line(entry) + Lines(entries), footer, 0, tail))
    decreases |entries|
  {
    if entries == [] {
      NextAt(before, entry, shared, footer, 0, tail);
      assert before + Line(entry) + Lines(entries) == before + Line(entry);
    } else {
      var next := entries[0];
      var nextShared := SharedLen(last, next.path);
      var rest := PrintedFrom(next.path, nextShared, entries[1..], footer);
      NextAt(before, entry, shared, next, nextShared, rest + tail);
      EntriesAt(before + Line(entry), next, nextShared, next.path, entries[1..], footer, tail);
      Assoc(Printed(next, shared, nextShared), rest, tail);
      Assoc(before + Line(entry), Line(next), Lines(entries[1..]));
    }
  }

  lemma LastAt(before: Bytes, footer: Entry)
    requires CleanEntry(footer)
    ensures var s := At(before, footer, 0, []);
            Regular(s) && Expand(s) == Ok(before + Line(footer))
  {
    var s := At(before, footer, 0, []);
    InsideAt(before, footer, 0, []);
    assert footer.path[0..] == footer.path && footer.path[..0] == [];
    assert s.text == before + footer.meta + [NUL] && s.input == footer.path + [NEWLINE];
    Assoc5(before, footer.meta, [NUL], footer.path, [NEWLINE]);
    Assoc(before + footer.meta + [NUL], footer.path, [NEWLINE]);
  }

  /** Reading on from a footer through the packages that follow. */
  lemma {:induction false} PackagesAt(before: Bytes, footer: Entry, packages: seq<Package>)
    requires CleanEntry(footer) && forall p | p in packages :: CleanPackage(p)
    ensures var s := At(before, footer, 0, PrintedAll(packages));
            Expand(s) == Ok(before + Line(footer) + AllLines(packages)) && Regular(s)
    decreases |packages|
  {
    if packages == [] {
      LastAt(before, footer);
      assert before + Line(footer) + [] == before + Line(footer);
    } else {
      var p := packages[0];
      assert p in packages;
      PackagesAt(before + Line(footer) + Lines(p.entries), p.footer, packages[1..]);
      EntriesAt(before, footer, 0, [], p.entries, p.footer, PrintedAll(packages[1..]));
      Assoc4(before + Line(footer), Lines(p.entries), Line(p.footer), AllLines(packages[1..]));
    }
  }

  /** The first entry of a stream shares nothing, since there is nothing before it. */
  lemma FirstAt(entry: Entry, tail: Bytes)
    requires CleanEntry(entry)
    ensures var s := Whole(Printed(entry, 0, 0) + tail);
            NUL in s.input && NextEntry(s) == Ok(At([], entry, 0, tail))
  {
    var s := Whole(Printed(entry, 0, 0) + tail);
    var after := entry.path[0..] + [NEWLINE] + tail;
    RegroupPrinted([], entry.meta, DiffBytes(0), entry.path[0..], tail);
    assert [] + entry.meta == entry.meta && [] + s.input == s.input;
    DiffRoundTrip(0, after);
    var text := entry.meta + [NUL];
    assert [] + text == text;
    BoundaryIs(s, entry.meta, DiffBytes(0), 0, after, text, []);
    assert At([], entry, 0, tail) == Stream(text + [], |text|, 0, after);
  }

  /** The whole stream of a first package leads to its footer. */
  lemma FirstPackageAt(p: Package, tail: Bytes)
    requires CleanPackage(p)
    ensures var s := Whole(PrintedPackage(p) + tail);
            var t := At(Lines(p.entries), p.footer, 0, tail);
            && NUL in s.input && NextEntry(s).Ok? && LeadsTo(NextEntry(s).value, t)
  {
    if p.entries == [] {
      FirstAt(p.footer, tail);
    } else {
      var first := p.entries[0];
      var rest := PrintedFrom(first.path, 0, p.entries[1..], p.footer);
      FirstAt(first, rest + tail);
      Assoc(Printed(first, 0, 0), rest, tail);
      EntriesAt([], first, 0, first.path, p.entries[1..], p.footer, tail);
      assert [] + Line(first) == Line(first);
    }
  }

  /**
   * The round trip over whole streams: the printed packages are a regular stream that stands for
   * every line of every package in order, footers included, also when two paths share more than the
   * largest 16-bit length.
   */
  lemma PrintedStandsForLines(packages: seq<Package>)
    requires forall p | p in packages :: CleanPackage(p)
    ensures RegularStream(PrintedAll(packages))
    ensures Expand(Whole(PrintedAll(packages))) == Ok(AllLines(packages))
  {
    if packages != [] {
      var p := packages[0];
      assert p in packages;
      FirstPackageAt(p, PrintedAll(packages[1..]));
      PackagesAt(Lines(p.entries), p.footer, packages[1..]);
    } else {
      assert Whole([]).text + Whole([]).input == [];
    }
  }
}
