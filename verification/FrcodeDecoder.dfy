/**
 * The decoder: a buffer that is compacted in place before every block, grows only while a block has
 * nothing complete yet, and stops and resumes in the middle of an entry.
 */
module FrcodeDecoder {
  import opened Wrappers
  import opened Bytes
  import opened FrcodeFormat
  import opened FrcodeBlocks

  datatype ReadOutcome = FoundNul | BufferFull | EndOfInput

  /** Bytes that may grow while `allowResize` holds. */
  class ResizableBuf {
    var data: array<Byte>
    var allowResize: bool

    constructor (capacity: nat)
      ensures fresh(data) && data.Length == capacity && allowResize
    {
      data := new Byte[capacity](_ => 0);
      allowResize := true;
    }

    ghost function Contents(): Bytes
      reads this, data
    {
      data[..]
    }

    /** Make room for `len` bytes, or report that this would need a forbidden resize. */
    method EnsureLen(len: nat) returns (ok: bool)
      modifies this`data
      ensures ok <==> len <= old(data.Length) || allowResize
      ensures ok ==> len <= data.Length
      ensures !ok ==> data == old(data)
      ensures data == old(data) || fresh(data)
      ensures old(Contents()) <= Contents()
    {
      if len <= data.Length {
        return true;
      }
      if !allowResize {
        return false;
      }
      // The allocator may hand out more than was asked for; all of it is zeroed and used.
      var additional := len - data.Length;
      var reserve := if additional > data.Length then additional else data.Length;
      var surplus: nat :| true;
      var grown := new Byte[data.Length + reserve + surplus](_ => 0);
      forall i | 0 <= i < data.Length {
        grown[i] := data[i];
      }
      data := grown;
      return true;
    }

    /** `copy_within`: move a run of bytes, source and destination may overlap. */
    method CopyWithin(from: nat, len: nat, to: nat)
      requires from + len <= data.Length && to + len <= data.Length
      modifies data
      ensures Contents() == Moved(old(Contents()), from, len, to)
    {
      forall i | 0 <= i < len {
        data[to + i] := data[from + i];
      }
    }

    /** `copy_from_slice`. */
    method CopyIn(bytes: Bytes, to: nat)
      requires to + |bytes| <= data.Length
      modifies data
      ensures Contents() == old(Contents()[..to]) + bytes + old(Contents()[to + |bytes|..])
    {
      forall i | 0 <= i < |bytes| {
        data[to + i] := bytes[i];
      }
    }
  }

  /** A run of bytes copied over another one. */
  function Moved(s: Bytes, from: nat, len: nat, to: nat): Bytes
    requires from + len <= |s| && to + len <= |s|
  {
    s[..to] + s[from..from + len] + s[to + len..]
  }

  class Decoder {
    /** The in-memory reader: all input, and how much of it is consumed. */
    const input: Bytes
    var at: nat

    const buf: ResizableBuf
    var pos: nat
    var lastPath: nat
    var sharedLen: int
    var partialEntryStart: nat

    /** All text ever decoded, and how much of it has been shifted out of the buffer. */
    ghost var text: Bytes
    ghost var base: nat

    /** Holds after any calls on any input: every position stays in range, and the buffer is the tail of the text. */
    ghost predicate Valid()
      reads this, buf, buf.data
    {
      && at <= |input|
      && lastPath <= pos <= buf.data.Length
      && base + pos == |text|
      && buf.Contents()[..pos] == text[base..]
    }

    /** The decoder as the unbounded reader that it stands for. */
    ghost function View(): Stream
      reads this
      requires at <= |input|
    {
      Stream(text, base + lastPath, sharedLen, input[at..])
    }

    constructor (input: Bytes, capacity: nat)
      ensures Valid() && fresh(buf) && fresh(buf.data)
      ensures this.input == input && View() == Whole(input) && pos == 0 && partialEntryStart == 0 && base == 0
    {
      this.input := input;
      this.at := 0;
      this.buf := new ResizableBuf(capacity);
      this.pos, this.lastPath, this.sharedLen, this.partialEntryStart := 0, 0, 0, 0;
      this.text, this.base := [], 0;
      new;
    }

    /** Append a chunk at `pos`, to the buffer and to the text alike; there must be room for it. */
    method Append(chunk: Bytes)
      requires Valid() && pos + |chunk| <= buf.data.Length
      modifies this`pos, this`text, buf.data
      ensures Valid() && text == old(text) + chunk && pos == old(pos) + |chunk|
    {
      buf.CopyIn(chunk, pos);
      MirrorGrows(old(buf.Contents()), buf.Contents(), chunk, pos, text, base);
      text := text + chunk;
      pos := pos + |chunk|;
    }

    /** Make room up to `len` without disturbing what is there. */
    method Reserve(len: nat) returns (ok: bool)
      requires Valid()
      modifies buf`data
      ensures Valid() && (buf.data == old(buf.data) || fresh(buf.data))
      ensures ok ==> len <= buf.data.Length
      ensures !ok ==> !buf.allowResize
    {
      ok := buf.EnsureLen(len);
      PrefixKept(old(buf.Contents()), buf.Contents(), pos);
    }

    /** Repeat `n` bytes of the buffer from `lastPath` on at `pos`; there must be room for them. */
    method AppendWithin(n: nat)
      requires Valid() && lastPath + n <= pos && pos + n <= buf.data.Length
      modifies this`pos, this`text, buf.data
      ensures Valid() && pos == old(pos) + n
      ensures text == old(text + text[base + lastPath..base + lastPath + n])
    {
      ghost var chunk := text[base + lastPath..base + lastPath + n];
      MirroredPart(buf.Contents(), pos, text, base, lastPath, n);
      buf.CopyWithin(lastPath, n, pos);
      MirrorGrows(old(buf.Contents()), buf.Contents(), chunk, pos, text, base);
      text := text + chunk;
      pos := pos + n;
    }

    /** `copy_shared`: repeat the shared prefix, unless the buffer is full and may not grow. */
    method CopySharedPrefix() returns (r: Outcome)
      requires Valid()
      modifies this`pos, this`text, this`lastPath, buf`data, buf.data
      ensures Valid() && (buf.data == old(buf.data) || fresh(buf.data))
      ensures CopyShared(old(View())).Err? <==> r.Failed?
      ensures r.Failed? ==> r.error == CopyShared(old(View())).error
      ensures r.GoOn? ==> View() == CopyShared(old(View())).value
      ensures !r.GoOn? ==> View() == old(View())
      ensures r.Stop? ==> !buf.allowResize
    {
      var previousLen := pos - lastPath;
      if sharedLen < 0 {
        return Failed(SharedOutOfRange(previousLen, sharedLen));
      }
      if sharedLen > previousLen {
        return Failed(SharedOutOfRange(previousLen, sharedLen));
      }
      var fits := Reserve(pos + sharedLen);
      if !fits {
        return Stop;
      }
      var newLastPath := pos;
      AppendWithin(sharedLen);
      lastPath := newLastPath;
      return GoOn;
    }

    /** One look at the available input: take it up to its NUL, or all of it, if it fits. */
    method ReadSome() returns (r: ReadOutcome)
      requires Valid() && at < |input|
      modifies this`pos, this`text, this`at, buf`data, buf.data
      ensures Valid() && (buf.data == old(buf.data) || fresh(buf.data))
      ensures r.FoundNul? ==> NUL in old(View()).input && View() == TakeChunk(old(View()))
      ensures r.BufferFull? ==> View() == old(View()) && !buf.allowResize
      ensures r.EndOfInput? ==> NUL !in old(View()).input && View() == TakeRest(old(View()))
      ensures !r.BufferFull? ==> at > old(at)
    {
      var available := input[at..];
      var i := IndexOf(available, NUL);
      var nul := i < |available|;
      var len := if nul then i + 1 else |available|;
      var fits := Reserve(pos + len);
      if !fits {
        return BufferFull;
      }
      Append(available[..len]);
      at := at + len;
      assert input[at..] == available[len..];
      return if nul then FoundNul else EndOfInput;
    }

    /** `read_to_nul`: take everything up to and including the next NUL, looking until there is no more input. */
    method ReadToNul() returns (r: ReadOutcome)
      requires Valid()
      modifies this`pos, this`text, this`at, buf`data, buf.data
      ensures Valid() && (buf.data == old(buf.data) || fresh(buf.data))
      ensures r.FoundNul? ==> NUL in old(View()).input && View() == TakeChunk(old(View()))
      ensures r.BufferFull? ==> View() == old(View()) && View().input != [] && !buf.allowResize
      ensures r.EndOfInput? ==> NUL !in old(View()).input && View() == TakeRest(old(View()))
    {
      ghost var start := View();
      r := EndOfInput;
      assert at == |input| ==> start == TakeRest(start);
      while r.EndOfInput? && at < |input|
        invariant Valid() && (buf.data == old(buf.data) || fresh(buf.data))
        invariant r.FoundNul? ==> NUL in start.input && View() == TakeChunk(start)
        invariant r.BufferFull? ==> View() == start && start.input != [] && !buf.allowResize
        invariant r.EndOfInput? && at < |input| ==> View() == start
        invariant r.EndOfInput? && at == |input| ==> NUL !in start.input && View() == TakeRest(start)
        decreases r.EndOfInput?, |input| - at
      {
        r := ReadSome();
      }
    }

    /** `decode_prefix_diff`: one byte, or a marker and two bytes in big-endian order. */
    method DecodePrefixDiff() returns (r: Result<int, Error>)
      requires Valid()
      modifies this`at
      ensures Valid()
      ensures match ReadDiff(old(View()).input) {
                case None => r == Err(MissingPrefixDifferential)
                case Some((diff, n)) => r == Ok(diff) && View() == old(View()).(input := old(View()).input[n..])
              }
    {
      if at == |input| {
        return Err(MissingPrefixDifferential);
      }
      var first := input[at];
      at := at + 1;
      if first == EXTENDED {
        if |input| - at < 2 {
          // A failed exact read leaves the cursor somewhere in the rest of the input.
          var left :| at <= left <= |input|;
          at := left;
          return Err(MissingPrefixDifferential);
        }
        var high: int, low: int := input[at], input[at + 1];
        at := at + 2;
        return Ok(ToI16(high * 256 + low));
      }
      return Ok(ToI8(first));
    }

    /** Behind a NUL: the differential, then the shared prefix if there is room for it. */
    method FinishBoundary() returns (r: Outcome)
      requires Valid()
      modifies this`pos, this`text, this`at, this`lastPath, this`sharedLen, buf`data, buf.data
      ensures Valid() && (buf.data == old(buf.data) || fresh(buf.data))
      ensures TakeDiff(old(View())).Err? ==> r == Failed(TakeDiff(old(View())).error)
      ensures TakeDiff(old(View())).Ok? ==>
                var t := TakeDiff(old(View())).value;
                && (CopyShared(t).Err? <==> r.Failed?)
                && (r.Failed? ==> r.error == CopyShared(t).error)
                && (r.GoOn? ==> View() == CopyShared(t).value)
                && (r.Stop? ==> View() == t && !buf.allowResize)
    {
      ghost var start := View();
      var diff := DecodePrefixDiff();
      if diff.Err? {
        return Failed(diff.error);
      }
      if !(-ISIZE_MAX - 1 <= sharedLen + diff.value <= ISIZE_MAX) {
        return Failed(SharedOverflow(sharedLen, diff.value));
      }
      sharedLen := sharedLen + diff.value;
      assert TakeDiff(start) == Ok(View());
      r := CopySharedPrefix();
    }

    /**
     * One turn of the main loop: chunk, differential, shared prefix. `read` tells whether a NUL was
     * taken. Only the first NUL of a block that did not start behind one leaves the buffer free to grow.
     */
    method DecodeEntry(foundNul: bool) returns (r: Outcome, read: bool)
      requires Valid()
      modifies this`pos, this`text, this`at, this`lastPath, this`sharedLen, buf`data, buf`allowResize, buf.data
      ensures Valid() && (buf.data == old(buf.data) || fresh(buf.data))
      ensures Turn(old(View()), View(), r, read, old(buf.allowResize), foundNul)
      ensures buf.allowResize == if read then !foundNul else old(buf.allowResize)
    {
      read := false;
      var chunk := ReadToNul();
      if !chunk.FoundNul? {
        return Stop, false;
      }
      read := true;
      buf.allowResize := !foundNul;
      r := FinishBoundary();
    }

    /**
     * The main loop: take entry boundaries until the buffer is full or the input runs out. On a
     * regular stream it cannot fail and ends where the next call can resume.
     */
    method DecodeEntries(alreadyFound: bool, ghost goal: Option<Bytes>, ghost ended: bool)
      returns (r: Result<(), Error>, gotInput: bool, foundNul: bool)
      requires Valid() && buf.allowResize
      requires goal.Some? && ended ==> View().input == []
      requires goal.Some? && !ended ==> Running(View(), View(), goal.value, false, alreadyFound, true)
      modifies this`pos, this`text, this`at, this`lastPath, this`sharedLen, buf, buf.data
      ensures Valid() && (buf.data == old(buf.data) || fresh(buf.data))
      ensures goal.Some? && ended ==> r.Ok? && !gotInput && foundNul == alreadyFound && View() == old(View())
      ensures goal.Some? && !ended ==> r.Ok? && Stopped(old(View()), View(), goal.value, gotInput, foundNul)
    {
      ghost var s0 := View();
      ghost var regular := goal.Some? && !ended;
      gotInput, foundNul := false, alreadyFound;
      r := Ok(());
      var eof := false;
      while !eof && r.Ok?
        invariant Valid() && (buf.data == old(buf.data) || fresh(buf.data))
        invariant !eof && r.Ok? && regular ==> Running(s0, View(), goal.value, gotInput, foundNul, buf.allowResize)
        invariant regular ==> r.Ok? && (eof ==> Stopped(s0, View(), goal.value, gotInput, foundNul))
        invariant goal.Some? && ended ==> r.Ok? && !gotInput && foundNul == alreadyFound && View() == s0
        decreases !eof && r.Ok?, |input| - at
      {
        ghost var s := View();
        ghost var allowed := buf.allowResize;
        var turn, read := DecodeEntry(foundNul);
        if regular {
          TurnRuns(s0, s, View(), goal.value, gotInput, foundNul, allowed, turn, read);
        }
        gotInput, foundNul := gotInput || read, foundNul || read;
        if turn.Failed? {
          r := Err(turn.error);
        } else {
          eof := turn.Stop?;
        }
      }
    }

    /** How much of the text has been handed out, as long as no call has failed. */
    ghost function Emitted(): nat
      reads this
    {
      base + partialEntryStart
    }

    /** The state between two successful calls on a stream that stands for `goal`. */
    ghost predicate On(goal: Bytes)
      reads this, buf, buf.data
    {
      Valid() && Between(View(), Emitted(), goal)
    }

    /**
     * Shift the unfinished entry, and the last path if that began earlier, to the front of the buffer.
     * Returns where the unfinished entry now begins.
     */
    method Compact() returns (itemStart: nat)
      requires Valid()
      modifies this`pos, this`lastPath, this`base, buf.data
      ensures Valid() && View() == old(View())
      ensures base + itemStart == old(Emitted())
      ensures base == old(base) + if partialEntryStart <= old(lastPath) then partialEntryStart else old(lastPath)
    {
      hide Moved;
      var end := pos;
      var copyPos := if partialEntryStart <= lastPath then partialEntryStart else lastPath;
      itemStart := partialEntryStart - copyPos;
      lastPath := lastPath - copyPos;
      var shiftLen := end - copyPos;
      ghost var before := buf.Contents();
      if copyPos > 0 && shiftLen > 0 {
        buf.CopyWithin(copyPos, shiftLen, 0);
      }
      MirrorShifts(before, buf.Contents(), end, copyPos, text, base);
      pos := shiftLen;
      base := base + copyPos;
    }

    predicate EndsInNul()
      reads this, buf, buf.data
      requires Valid()
      ensures EndsInNul() <==> pos > 0 && text[|text| - 1] == NUL
    {
      assert pos > 0 ==> buf.data[pos - 1] == buf.Contents()[..pos][pos - 1];
      pos > 0 && buf.data[pos - 1] == NUL
    }

    /** The first half of a call: compaction, and the copy that the last call had no room for. */
    method Resume(ghost goal: Option<Bytes>) returns (r: Result<(), Error>, foundNul: bool, itemStart: nat)
      requires Valid() && (goal.Some? ==> On(goal.value))
      modifies this`pos, this`text, this`lastPath, this`base, buf, buf.data
      ensures Valid() && (buf.data == old(buf.data) || fresh(buf.data))
      ensures r.Ok? ==> buf.allowResize
      ensures base + itemStart == old(Emitted()) && old(text) <= text
      ensures goal.Some? ==> r.Ok? && Resumed(old(View()), View(), goal.value, foundNul)
      ensures goal.Some? && Ended(old(View())) ==> itemStart == pos
    {
      hide Between, Resumed, Running, Ended, CopyShared;
      ghost var s := View();
      ghost var emitted := Emitted();
      itemStart := Compact();
      buf.allowResize := true;
      foundNul := EndsInNul();
      if goal.Some? {
        ResumeFacts(s, emitted, goal.value);
      }
      if foundNul {
        var copied := CopySharedPrefix();
        if copied.Failed? {
          return Err(copied.error), foundNul, itemStart;
        }
        CopyGrows(s);
        assert copied.GoOn? && View() == CopyShared(s).value;
      } else {
        assert View() == s;
      }
      r := Ok(());
    }

    /** A call up to the cut: resume, then take entries until the buffer is full or the input is. */
    method Advance(ghost goal: Option<Bytes>)
      returns (r: Result<(), Error>, itemStart: nat, gotInput: bool, foundNul: bool)
      requires Valid() && (goal.Some? ==> On(goal.value))
      modifies this`pos, this`text, this`at, this`lastPath, this`sharedLen, this`base, buf, buf.data
      ensures Valid() && (buf.data == old(buf.data) || fresh(buf.data))
      ensures goal.Some? ==> r.Ok? && base + itemStart == old(Emitted())
      ensures goal.Some? ==>
                HandsOut(CutBlock(text[base..], itemStart, partialEntryStart, gotInput, foundNul),
                         text[base..], View(), goal.value, base, itemStart)
    {
      hide Regular, Expand, Running, Stopped, Between, HandsOut, CutBlock;
      ghost var s, emitted := View(), Emitted();
      gotInput := false;
      r, foundNul, itemStart := Resume(goal);
      if r.Ok? {
        ghost var s0 := View();
        r, gotInput, foundNul := DecodeEntries(foundNul, goal, Ended(s));
        if goal.Some? {
          ghost var t := View();
          assert base + itemStart == emitted && t.text == text;
          CutCorrect(s, s0, t, goal.value, gotInput, foundNul, base, itemStart, partialEntryStart);
        }
      }
    }

    /**
     * `decode`: the next block of whole lines, or nothing at the end. On any input every position
     * stays in range. On a regular stream, one that stands for `goal`, the call succeeds, hands out
     * exactly the next lines, and hands out nothing only when everything has been handed out.
     */
    method Decode(ghost goal: Option<Bytes>) returns (r: Result<Bytes, Error>)
      requires Valid() && (goal.Some? ==> On(goal.value))
      modifies this, buf, buf.data
      ensures Valid() && (buf.data == old(buf.data) || fresh(buf.data))
      ensures goal.Some? ==>
                && On(goal.value) && old(Emitted()) <= Emitted() <= |goal.value|
                && r.Ok? && r.value == goal.value[old(Emitted())..Emitted()]
                && (old(Emitted()) == Emitted() <==> old(Emitted()) == |goal.value|)
    {
      hide Regular, Expand, Between, CutBlock;
      var advanced, itemStart, gotInput, foundNul := Advance(goal);
      if advanced.Err? {
        return Err(advanced.error);
      }
      var view := buf.data[..pos];
      assert view == text[base..];
      var cut := CutBlock(view, itemStart, partialEntryStart, gotInput, foundNul);
      ghost var t := View();
      partialEntryStart := cut.next;
      assert View() == t && Emitted() == base + cut.next;
      match cut
      case Block(next) => r := Ok(view[itemStart..next]);
      case Nothing(_) => r := Ok([]);
      case CutFailed(_, error) => r := Err(error);
    }
  }

  /** Shifting the buffer to the front drops the same bytes from the mirrored text. */
  lemma MirrorShifts(before: Bytes, after: Bytes, end: nat, shift: nat, text: Bytes, base: nat)
    requires shift <= end <= |before| == |after| && base + end == |text| && before[..end] == text[base..]
    requires after == if shift > 0 && end > shift then Moved(before, shift, end - shift, 0) else before
    ensures after[..end - shift] == text[base + shift..]
  {
    DropTwice(text, base, shift);
    TakeDrop(before, shift, end);
    if shift > 0 && end > shift {
      TakeHead(before[shift..end], before[end - shift..]);
      assert before[..0] + before[shift..end] == before[shift..end];
    }
  }

  lemma CopyGrows(s: Stream)
    requires s.lastPath <= |s.text|
    ensures CopyShared(s).Ok? ==> s.text <= CopyShared(s).value.text
    ensures s.text != [] && s.text[|s.text| - 1] == NUL ==> !Ended(s)
  {
  }

  lemma DropTwice(s: Bytes, a: nat, b: nat)
    requires a + b <= |s|
    ensures s[a + b..] == s[a..][b..]
  {
  }

  lemma TakeDrop(s: Bytes, a: nat, b: nat)
    requires a <= b <= |s|
    ensures s[a..b] == s[..b][a..]
  {
  }

  lemma TakeHead(a: Bytes, b: Bytes)
    ensures (a + b)[..|a|] == a
  {
  }

  lemma PrefixKept(before: Bytes, after: Bytes, n: nat)
    requires n <= |before| && before <= after
    ensures after[..n] == before[..n]
  {
  }

  /** A part of the mirrored buffer is the corresponding part of the text. */
  lemma MirroredPart(data: Bytes, pos: nat, text: Bytes, base: nat, start: nat, n: nat)
    requires pos <= |data| && base + pos == |text| && data[..pos] == text[base..] && start + n <= pos
    ensures data[start..start + n] == text[base + start..base + start + n]
  {
    assert data[start..start + n] == data[..pos][start..start + n];
    assert text[base + start..base + start + n] == text[base..][start..start + n];
  }

  /** Writing a chunk behind the mirrored part keeps the buffer the tail of the longer text. */
  lemma MirrorGrows(before: Bytes, after: Bytes, chunk: Bytes, pos: nat, text: Bytes, base: nat)
    requires pos + |chunk| <= |before| && base + pos == |text| && before[..pos] == text[base..]
    requires after == before[..pos] + chunk + before[pos + |chunk|..]
    ensures after[..pos + |chunk|] == (text + chunk)[base..]
  {
    assert after[..pos + |chunk|] == before[..pos] + chunk;
    assert (text + chunk)[base..] == text[base..] + chunk;
  }
}
