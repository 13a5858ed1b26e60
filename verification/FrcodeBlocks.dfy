/**
 * Where a decoder can be between two blocks of a regular stream, and how the main loop moves it
 * from one such place to the next. Everything here is about the unbounded reader it stands for.
 */
module FrcodeBlocks {
  import opened Wrappers
  import opened Bytes
  import opened FrcodeFormat

  /** The reader at the end of its input. */
  function TakeRest(s: Stream): Stream {
    s.(text := s.text + s.input, input := [])
  }

  /** Whether the main loop goes on, ends the block, or fails. */
  datatype Outcome = GoOn | Stop | Failed(error: Error)

  /** What one turn of the main loop does to the reader, by outcome. */
  ghost predicate Turn(s: Stream, t: Stream, r: Outcome, read: bool, allowResize: bool, foundNul: bool) {
    && s.lastPath <= |s.text| && t.lastPath <= |t.text|
    && (read ==> NUL in s.input)
    && (r.GoOn? ==> read && NextEntry(s) == Ok(t))
    && (r.Stop? && read ==> TakeDiff(TakeChunk(s)) == Ok(t) && CopyShared(t).Ok? && foundNul)
    && (r.Stop? && !read ==> (NUL !in s.input && t == TakeRest(s)) || (t == s && s.input != [] && !allowResize))
    && (r.Failed? ==> read && NextEntry(s) == Err(r.error))
  }

  // ---------- places between blocks ----------

  ghost predicate Fresh(s: Stream) {
    s == Whole(s.input) && RegularStream(s.input)
  }

  /** Everything is read. */
  predicate Ended(s: Stream) {
    s.input == [] && s.text != [] && s.text[|s.text| - 1] == NEWLINE && s.lastPath < |s.text|
  }

  /** Stopped right behind a NUL, with the shared prefix still to be repeated. */
  ghost predicate Pending(s: Stream) {
    && s.lastPath <= |s.text| && s.text != [] && s.text[|s.text| - 1] == NUL
    && CopyShared(s).Ok? && Regular(CopyShared(s).value)
  }

  ghost predicate Resumable(s: Stream) {
    Ended(s) || Regular(s) || Pending(s)
  }

  /** Everything the reader has read and is still going to read. */
  ghost function Future(s: Stream): Result<Bytes, Error>
    requires s.lastPath <= |s.text|
  {
    if !Regular(s) && Pending(s) then Expand(CopyShared(s).value) else Expand(s)
  }

  // ---------- one block ----------

  /** The loop is about to take another turn. */
  ghost predicate Running(s0: Stream, s: Stream, goal: Bytes, got: bool, foundNul: bool, allowResize: bool) {
    && (Regular(s) || Fresh(s)) && s.lastPath <= |s.text| && Expand(s) == Ok(goal)
    && s0.text <= s.text
    && (got ==> Regular(s) && foundNul && (NEWLINE in s.text[|s0.text|..] || (allowResize && Fresh(s0))))
    && (!got ==> s == s0 && allowResize && (foundNul ==> Regular(s)) && (Regular(s) && NUL !in s.input ==> foundNul))
  }

  /** The loop has ended: with something new, or because there is nothing at all. */
  ghost predicate Stopped(s0: Stream, s: Stream, goal: Bytes, got: bool, foundNul: bool) {
    && s.lastPath <= |s.text| && s0.text <= s.text
    && ((s == s0 == Whole([]) && goal == [] && !got)
        || (Resumable(s) && Future(s) == Ok(goal) && NEWLINE in s.text[|s0.text|..] && (got || foundNul)))
  }

  lemma EndRegular(s: Stream, goal: Bytes)
    requires Regular(s) && NUL !in s.input && Expand(s) == Ok(goal)
    ensures Ended(TakeRest(s)) && Future(TakeRest(s)) == Ok(goal) && NEWLINE in TakeRest(s).text[|s.text|..]
  {
    var t := TakeRest(s);
    assert t.text[|s.text|..] == s.input && s.input[|s.input| - 1] in s.input;
    assert t.text + [] == t.text;
  }

  /** The text gained by one boundary from inside an entry holds that entry's newline. */
  lemma BoundaryGains(s: Stream)
    requires Regular(s) && NUL in s.input
    ensures var chunk := TakeChunk(s).text;
            s.text <= chunk && NEWLINE in chunk[|s.text|..]
  {
    var k := IndexOf(s.input, NUL);
    assert TakeChunk(s).text[|s.text|..] == s.input[..k + 1];
    assert NEWLINE in s.input[..k] && s.input[..k] <= s.input[..k + 1];
    var i :| 0 <= i < k && s.input[..k][i] == NEWLINE;
    assert s.input[..k + 1][i] == NEWLINE;
  }

  lemma NewlineKept(a: Bytes, b: Bytes, n: nat)
    requires n <= |a| && a <= b && NEWLINE in a[n..]
    ensures NEWLINE in b[n..]
  {
    var i :| 0 <= i < |a| - n && a[n..][i] == NEWLINE;
    assert b[n..][i] == NEWLINE;
  }

  lemma NextEntryGrows(s: Stream)
    requires s.lastPath <= |s.text| && NUL in s.input
    ensures s.text <= TakeChunk(s).text
    ensures NextEntry(s).Ok? ==> TakeChunk(s).text <= NextEntry(s).value.text
    ensures TakeDiff(TakeChunk(s)).Ok? ==> TakeDiff(TakeChunk(s)).value.text == TakeChunk(s).text
  {
  }

  /** Between two entries nothing regular ends in the middle of a boundary. */
  lemma PendingBoundary(s: Stream, t: Stream, goal: Bytes)
    requires (Regular(s) || Fresh(s)) && s.lastPath <= |s.text| && Expand(s) == Ok(goal) && NUL in s.input
    requires TakeDiff(TakeChunk(s)) == Ok(t) && t.lastPath <= |t.text|
    ensures Pending(t) && Future(t) == Ok(goal)
  {
    NextStays(s, goal);
    ChunkEnds(s, t);
    EndsIrregular(t);
    assert NextEntry(s) == CopyShared(t);
    hide Regular, Fresh, Expand, TakeDiff, TakeChunk, NextEntry, CopyShared;
  }

  lemma NextStays(s: Stream, goal: Bytes)
    requires (Regular(s) || Fresh(s)) && s.lastPath <= |s.text| && Expand(s) == Ok(goal) && NUL in s.input
    ensures NextEntry(s).Ok? && Regular(NextEntry(s).value) && Expand(NextEntry(s).value) == Ok(goal)
  {
    hide NextEntry, InsideEntry;
  }

  lemma ChunkEnds(s: Stream, t: Stream)
    requires NUL in s.input && TakeDiff(TakeChunk(s)) == Ok(t) && s.lastPath <= |s.text|
    ensures t.text != [] && t.text[|t.text| - 1] == NUL && t.lastPath < |t.text|
  {
    hide ReadDiff;
    var k := IndexOf(s.input, NUL);
    assert t.text == s.text + s.input[..k + 1] && t.lastPath == s.lastPath;
  }

  lemma EndsIrregular(t: Stream)
    requires t.text != [] && t.text[|t.text| - 1] == NUL && t.lastPath < |t.text|
    ensures !Regular(t)
  {
    assert t.text[t.lastPath..][|t.text| - 1 - t.lastPath] == NUL;
  }

  /** A turn that takes another entry boundary. */
  lemma BoundaryRuns(s0: Stream, s: Stream, t: Stream, goal: Bytes, got: bool, foundNul: bool, allowResize: bool)
    requires Running(s0, s, goal, got, foundNul, allowResize) && NUL in s.input && NextEntry(s) == Ok(t)
    ensures Running(s0, t, goal, true, true, !foundNul)
  {
    NextEntryGrows(s);
    if Regular(s) {
      BoundaryGains(s);
      NewlineKept(TakeChunk(s).text, t.text, |s.text|);
      assert t.text[|s0.text|..][|s.text| - |s0.text|..] == t.text[|s.text|..];
    }
  }

  /** A turn that fills the buffer behind a NUL. */
  lemma FullRuns(s0: Stream, s: Stream, t: Stream, goal: Bytes, got: bool, foundNul: bool, allowResize: bool)
    requires Running(s0, s, goal, got, foundNul, allowResize) && NUL in s.input && foundNul
    requires TakeDiff(TakeChunk(s)) == Ok(t) && t.lastPath <= |t.text|
    ensures Stopped(s0, t, goal, true, true)
  {
    PendingBoundary(s, t, goal);
    NextEntryGrows(s);
    BoundaryGains(s);
    assert t.text[|s0.text|..][|s.text| - |s0.text|..] == t.text[|s.text|..];
  }

  /** A turn that runs out of input. */
  lemma RestRuns(s0: Stream, s: Stream, goal: Bytes, got: bool, foundNul: bool, allowResize: bool)
    requires Running(s0, s, goal, got, foundNul, allowResize) && NUL !in s.input
    ensures Stopped(s0, TakeRest(s), goal, got, foundNul)
  {
    if Regular(s) {
      EndRegular(s, goal);
      assert TakeRest(s).text[|s0.text|..][|s.text| - |s0.text|..] == TakeRest(s).text[|s.text|..];
    }
  }

  /** One turn keeps the loop running, or ends the block at a place from which the next one resumes. */
  lemma TurnRuns(s0: Stream, s: Stream, t: Stream, goal: Bytes, got: bool, foundNul: bool, allowResize: bool,
                 r: Outcome, read: bool)
    requires Running(s0, s, goal, got, foundNul, allowResize)
    requires Turn(s, t, r, read, allowResize, foundNul)
    ensures !r.Failed?
    ensures r.GoOn? ==> Running(s0, t, goal, true, true, !foundNul)
    ensures r.Stop? ==> Stopped(s0, t, goal, got || read, foundNul || read)
  {
    if read {
      if r.GoOn? {
        BoundaryRuns(s0, s, t, goal, got, foundNul, allowResize);
      } else if r.Stop? {
        FullRuns(s0, s, t, goal, got, foundNul, allowResize);
      }
    } else if NUL !in s.input && t == TakeRest(s) {
      RestRuns(s0, s, goal, got, foundNul, allowResize);
    }
  }

  // ---------- from block to block ----------

  /** The place between two blocks, when the first `emitted` bytes of the text have been handed out. */
  ghost predicate Between(s: Stream, emitted: nat, goal: Bytes) {
    && s.lastPath <= |s.text|
    && ((Fresh(s) && Expand(s) == Ok(goal) && emitted == 0)
        || (Resumable(s) && Future(s) == Ok(goal)
            && 0 < emitted <= |s.text| && s.text[emitted - 1] == NEWLINE && NEWLINE !in s.text[emitted..]))
  }

  /** After an end, everything has been handed out. */
  lemma EndedIsEmitted(s: Stream, emitted: nat, goal: Bytes)
    requires Between(s, emitted, goal) && Ended(s)
    ensures emitted == |s.text| && s.text == goal
  {
    assert s.text + [] == s.text;
    AbsentFrom(s.text, emitted, NEWLINE);
  }

  lemma NewlineBeforeEntry(s: Stream, emitted: nat)
    requires InsideEntry(s) && 0 < emitted <= |s.text| && s.text[emitted - 1] == NEWLINE
    ensures emitted < s.lastPath
  {
    AbsentFrom(s.text, s.lastPath, NEWLINE);
  }

  /** In the middle of an entry, something behind the last newline is still in hand. */
  lemma MiddleIsOpen(s: Stream, emitted: nat, goal: Bytes)
    requires Between(s, emitted, goal) && !Fresh(s) && !Ended(s)
    ensures emitted < |s.text|
    ensures Regular(s) ==> emitted < s.lastPath
  {
    if Regular(s) {
      NewlineBeforeEntry(s, emitted);
    }
  }

  /** Resuming behind a NUL: the copy is made now, or making it again changes nothing. */
  lemma ResumeBehindNul(s: Stream, emitted: nat, goal: Bytes)
    requires Between(s, emitted, goal) && !Fresh(s) && !Ended(s)
    ensures s.text[|s.text| - 1] == NUL ==> CopyShared(s).Ok? && Running(CopyShared(s).value, CopyShared(s).value, goal, false, true, true)
    ensures s.text[|s.text| - 1] != NUL ==> Running(s, s, goal, false, false, true)
  {
    if Regular(s) && s.text[|s.text| - 1] == NUL {
      AbsentFrom(s.text, s.lastPath, NUL);
      assert s.text + s.text[s.lastPath..s.lastPath + s.shared] == s.text;
      assert CopyShared(s).value == s;
    }
  }

  lemma FreshRuns(s: Stream, emitted: nat, goal: Bytes)
    requires Between(s, emitted, goal) && Fresh(s)
    ensures Running(s, s, goal, false, false, true)
  {
  }

  /** What the first half of a call leaves to the main loop. */
  ghost predicate Resumed(s: Stream, s0: Stream, goal: Bytes, foundNul: bool) {
    if Ended(s) then s0 == s && !foundNul else Running(s0, s0, goal, false, foundNul, true)
  }

  /** Where the first half of a call may be, and what its copy makes of it. */
  lemma ResumeFacts(s: Stream, emitted: nat, goal: Bytes)
    requires Between(s, emitted, goal)
    ensures emitted <= |s.text| && (Ended(s) ==> emitted == |s.text|)
    ensures s.text == [] ==> Resumed(s, s, goal, false)
    ensures s.text != [] && s.text[|s.text| - 1] != NUL ==> Resumed(s, s, goal, false)
    ensures s.text != [] && s.text[|s.text| - 1] == NUL ==>
              emitted < |s.text| && CopyShared(s).Ok? && Resumed(s, CopyShared(s).value, goal, true)
  {
    if Fresh(s) {
      FreshRuns(s, emitted, goal);
    } else if Ended(s) {
      EndedIsEmitted(s, emitted, goal);
    } else {
      MiddleIsOpen(s, emitted, goal);
      ResumeBehindNul(s, emitted, goal);
    }
  }

  lemma FutureExtends(s: Stream, goal: Bytes)
    requires s.lastPath <= |s.text| && Future(s) == Ok(goal)
    ensures s.text <= goal
  {
    if !Regular(s) && Pending(s) {
      ExpandExtends(CopyShared(s).value);
    } else {
      ExpandExtends(s);
    }
  }

  // ---------- cutting a block ----------

  /** What to hand out, and where the next unfinished entry begins. */
  datatype Cut = Block(next: nat) | Nothing(next: nat) | CutFailed(next: nat, error: Error)

  /** The last half of a call: the block reaches from `itemStart` to behind the last newline of the buffer. */
  function CutBlock(view: Bytes, itemStart: nat, partialEntryStart: nat, gotInput: bool, foundNul: bool): (cut: Cut)
    ensures cut.Block? ==> itemStart <= cut.next <= |view|
  {
    match LastIndexOf(view, NEWLINE)
    case None => if gotInput then CutFailed(partialEntryStart, MissingNewline) else Nothing(partialEntryStart)
    case Some(newline) =>
      if !gotInput && newline < itemStart then Nothing(newline + 1)
      else if !gotInput && !foundNul && |view| > itemStart then CutFailed(newline + 1, MissingNul)
      else if newline + 1 < itemStart then CutFailed(newline + 1, MissingNewline)
      else Block(newline + 1)
  }

  /** The bytes up to here are the whole lines of a buffer. */
  ghost predicate WholeUpTo(view: Bytes, next: nat) {
    0 < next <= |view| && view[next - 1] == 10 && forall k | next <= k < |view| :: view[k] != 10
  }

  /**
   * On any buffer: a block ends behind the last newline, unless that lies before the block. Nothing is handed out when
   * nothing was read and no line is new; a line is missing when something was read, and a NUL when nothing was.
   */
  lemma CutSays(view: Bytes, itemStart: nat, partialEntryStart: nat, gotInput: bool, foundNul: bool)
    ensures match CutBlock(view, itemStart, partialEntryStart, gotInput, foundNul)
            case Block(next) => WholeUpTo(view, next) && if gotInput then itemStart <= next else itemStart < next && foundNul
            case Nothing(next) => !gotInput && if 10 in view then WholeUpTo(view, next) && next <= itemStart else next == partialEntryStart
            case CutFailed(next, error) =>
              if gotInput then
                && error == MissingNewline
                && (if 10 in view then WholeUpTo(view, next) && next < itemStart else next == partialEntryStart)
              else error == MissingNul && !foundNul && WholeUpTo(view, next) && itemStart < next
  {
    if i :| 0 <= i && LastIndexOf(view, NEWLINE) == Some(i) {
      forall k | i + 1 <= k < |view| ensures view[k] != 10 {
        assert view[k] == view[i + 1..][k - (i + 1)];
      }
      assert view[i] == 10 && WholeUpTo(view, i + 1);
    }
  }

  /** The last newline of the tail of a text. */
  lemma LastNewlineOfTail(text: Bytes, base: nat, newline: nat)
    requires base <= |text| && LastIndexOf(text[base..], NEWLINE) == Some(newline)
    ensures var next := base + newline + 1;
            next <= |text| && text[next - 1] == NEWLINE && NEWLINE !in text[next..]
  {
    assert text[base..][newline + 1..] == text[base + newline + 1..];
  }

  lemma TailPart(text: Bytes, base: nat, from: nat, to: nat)
    requires base <= |text| && from <= to <= |text| - base
    ensures text[base..][from..to] == text[base + from..base + to]
  {
  }

  /** After everything has been handed out, nothing more is. */
  lemma CutAtEnd(text: Bytes, base: nat, itemStart: nat, partialEntryStart: nat, foundNul: bool)
    requires base < |text| == base + itemStart && text[|text| - 1] == NEWLINE
    ensures CutBlock(text[base..], itemStart, partialEntryStart, false, foundNul) == Nothing(itemStart)
  {
    var view := text[base..];
    assert view[|view| - 1] == NEWLINE && view[|view| - 1] in view;
    AbsentFrom(view, LastIndexOf(view, NEWLINE).value + 1, NEWLINE);
  }

  /** Cutting the text at its last newline hands out the next whole lines of the goal. */
  lemma CutGained(s0: Stream, s: Stream, goal: Bytes, got: bool, foundNul: bool,
                  base: nat, itemStart: nat, partialEntryStart: nat)
    requires Stopped(s0, s, goal, got, foundNul) && s != Whole([])
    requires base <= base + itemStart <= |s0.text|
    ensures var cut := CutBlock(s.text[base..], itemStart, partialEntryStart, got, foundNul);
            && cut.Block? && itemStart < cut.next <= |s.text| - base && base + cut.next <= |goal|
            && Between(s, base + cut.next, goal)
            && s.text[base..][itemStart..cut.next] == goal[base + itemStart..base + cut.next]
  {
    hide Regular, Expand, Future, Between, Stopped, Resumable;
    GainedNewline(s0, s, goal, got, foundNul, base);
    var next := LastIndexOf(s.text[base..], NEWLINE).value + 1;
    LastNewlineOfTail(s.text, base, next - 1);
    BlockIsNext(s0, s, goal, got, foundNul, base + itemStart, base + next);
    TailPart(s.text, base, itemStart, next);
    assert CutBlock(s.text[base..], itemStart, partialEntryStart, got, foundNul) == Block(next);
  }

  /** What was gained is still in the buffer, however much was shifted out of it. */
  lemma GainedNewline(s0: Stream, s: Stream, goal: Bytes, got: bool, foundNul: bool, base: nat)
    requires Stopped(s0, s, goal, got, foundNul) && s != Whole([]) && base <= |s0.text|
    ensures NEWLINE in s.text[base..] && (got || foundNul)
  {
    assert s.text[base..][|s0.text| - base..] == s.text[|s0.text|..];
  }

  lemma BlockIsNext(s0: Stream, s: Stream, goal: Bytes, got: bool, foundNul: bool, emitted: nat, next: nat)
    requires Stopped(s0, s, goal, got, foundNul) && s != Whole([])
    requires emitted <= |s0.text|
    requires 0 < next <= |s.text| && s.text[next - 1] == NEWLINE && NEWLINE !in s.text[next..]
    ensures emitted <= |s0.text| < next <= |goal|
    ensures Between(s, next, goal)
    ensures s.text[emitted..next] == goal[emitted..next]
  {
    FutureExtends(s, goal);
    var i :| 0 <= i < |s.text| - |s0.text| && s.text[|s0.text|..][i] == NEWLINE;
    assert s.text[|s0.text| + i] == NEWLINE;
    AbsentFrom(s.text, next, NEWLINE);
  }

  /** The outcome of a whole call: the next part of the goal, and nothing only when nothing is left. */
  ghost predicate HandsOut(cut: Cut, view: Bytes, t: Stream, goal: Bytes, base: nat, itemStart: nat) {
    && !cut.CutFailed? && Between(t, base + cut.next, goal) && base + cut.next <= |goal|
    && (cut.Block? ==> itemStart < cut.next <= |view|
                       && view[itemStart..cut.next] == goal[base + itemStart..base + cut.next])
    && (cut.Nothing? ==> base + itemStart == base + cut.next == |goal|)
  }

  /** A whole call, from the place `s` before it by way of `s0` to the place `t` after it. */
  lemma CutCorrect(s: Stream, s0: Stream, t: Stream, goal: Bytes, got: bool, foundNul: bool,
                   base: nat, itemStart: nat, partialEntryStart: nat)
    requires Between(s, base + itemStart, goal) && base <= |t.text| && s.text <= s0.text
    requires Ended(s) ==> s0 == s && t == s && !got && itemStart > 0
    requires !Ended(s) ==> Stopped(s0, t, goal, got, foundNul)
    requires partialEntryStart <= base + itemStart
    ensures var view := t.text[base..];
            HandsOut(CutBlock(view, itemStart, partialEntryStart, got, foundNul), view, t, goal, base, itemStart)
  {
    if Ended(s) {
      EndedIsEmitted(s, base + itemStart, goal);
      CutAtEnd(t.text, base, itemStart, partialEntryStart, foundNul);
    } else {
      EmittedOf(s, base + itemStart, goal);
      if t == Whole([]) {
        assert t.text + t.input == [];
      } else {
        CutGained(s0, t, goal, got, foundNul, base, itemStart, partialEntryStart);
      }
    }
  }

  /** What has been handed out never exceeds what has been read, nor what the stream stands for. */
  lemma EmittedOf(s: Stream, emitted: nat, goal: Bytes)
    requires Between(s, emitted, goal)
    ensures emitted <= |s.text| <= |goal|
  {
    if Fresh(s) {
      ExpandExtends(s);
    } else {
      FutureExtends(s, goal);
    }
  }
}
