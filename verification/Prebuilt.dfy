/**
 * The segmented download: probe the first range, fetch the others into part files in rounds, and
 * join the parts. Requests carry Range and If-Range (sections 14.2 and 13.1.5 of RFC 9110).
 */
module Prebuilt {
  import opened Wrappers
  import opened Bytes
  import opened Segments

  const MAX_SEGMENT_ATTEMPTS := 3

  /**
   * What comes of one range request: a 206 response, of whose body some bytes arrive before the
   * transfer ends or breaks, a full 200 response, a 416, a retryable status, any other status, or
   * no response at all.
   */
  datatype Response =
    | Partial(arrived: Bytes, broken: bool)
    | Full | NotSatisfiable | Retryable | Other | NoResponse

  /** The parts on disk by segment index, and the outcome of a fetch. */
  type Parts = map<nat, Bytes>

  datatype Fetched = Stored | Changed | Transient

  datatype DownloadError = TooSmall | ProbeFailed | ResourceChanged | RetriesExhausted

  /** The bytes of a range of the resource. */
  function Slice(resource: Bytes, s: Segment): Bytes
    requires s.start <= s.end < |resource|
  {
    resource[s.start..s.end + 1]
  }

  /** Some consecutive bytes of a range. */
  ghost predicate PartOf(bytes: Bytes, range: Bytes) {
    exists a, b :: 0 <= a <= b <= |range| && bytes == range[a..b]
  }

  /**
   * A server that honours If-Range: whatever arrives with a 206 response comes from the requested
   * range of the version with that ETag (section 15.3.7 of RFC 9110 allows it to send less).
   */
  ghost predicate Honest(resource: Bytes, segments: seq<Segment>, probe: Response, server: (nat, nat) -> Response) {
    && (forall i | 0 <= i < |segments| :: segments[i].start <= segments[i].end < |resource|)
    && (segments != [] && probe.Partial? ==> PartOf(probe.arrived, Slice(resource, segments[0])))
    && forall k: nat, i: nat | i < |segments| && server(k, i).Partial? :: PartOf(server(k, i).arrived, Slice(resource, segments[i]))
  }

  // ---------- the rounds as functions ----------

  /** The part is there with the expected length. */
  predicate Complete(parts: Parts, segments: seq<Segment>, i: nat)
    requires i < |segments|
  {
    i in parts && |parts[i]| == segments[i].Size()
  }

  /** The first segment is never looked at again. */
  ghost predicate NothingMissing(parts: Parts, segments: seq<Segment>) {
    forall i | 1 <= i < |segments| :: Complete(parts, segments, i)
  }

  /** What one response does to a part: a 206 body replaces it, as far as it arrives. */
  function After(parts: Parts, i: nat, response: Response): Parts {
    if response.Partial? then parts[i := response.arrived] else parts
  }

  /** The answer means that the resource is no longer the one that was probed, or was not asked for rightly. */
  predicate Refused(response: Response) {
    response.Full? || response.NotSatisfiable? || response.Other?
  }

  /** The parts after a round has asked for the missing ones among the first `n` segments. */
  function Round(parts: Parts, segments: seq<Segment>, server: (nat, nat) -> Response, attempt: nat, n: nat): Parts
    requires n <= |segments|
  {
    if n <= 1 then parts
    else
      var before := Round(parts, segments, server, attempt, n - 1);
      if Complete(parts, segments, n - 1) then before else After(before, n - 1, server(attempt, n - 1))
  }

  /** Some request of the round was answered with a changed resource. */
  predicate ChangedIn(parts: Parts, segments: seq<Segment>, server: (nat, nat) -> Response, attempt: nat) {
    exists i | 1 <= i < |segments| :: !Complete(parts, segments, i) && Refused(server(attempt, i))
  }

  datatype Run = Done(parts: Parts) | Aborted(error: DownloadError, parts: Parts)

  /** The whole retry loop from an attempt on. */
  ghost function Rounds(parts: Parts, segments: seq<Segment>, server: (nat, nat) -> Response, attempt: nat): Run
    decreases MAX_SEGMENT_ATTEMPTS + 1 - attempt
  {
    if attempt > MAX_SEGMENT_ATTEMPTS then Aborted(RetriesExhausted, parts)
    else if NothingMissing(parts, segments) then Done(parts)
    else if ChangedIn(parts, segments, server, attempt) then
      Aborted(ResourceChanged, Round(parts, segments, server, attempt, |segments|))
    else Rounds(Round(parts, segments, server, attempt, |segments|), segments, server, attempt + 1)
  }

  // ---------- the methods ----------

  /** `missing_segments`: which parts do not have their expected length, the first one aside. */
  method MissingSegments(parts: Parts, segments: seq<Segment>) returns (missing: seq<nat>)
    ensures forall i :: i in missing <==> 1 <= i < |segments| && !Complete(parts, segments, i)
    ensures forall a, b | 0 <= a < b < |missing| :: missing[a] < missing[b]
  {
    missing := [];
    var i: int := 1;
    while i < |segments|
      invariant forall k :: k in missing <==> 1 <= k < i && k < |segments| && !Complete(parts, segments, k)
      invariant forall a | 0 <= a < |missing| :: missing[a] < i
      invariant forall a, b | 0 <= a < b < |missing| :: missing[a] < missing[b]
    {
      if !Complete(parts, segments, i) {
        missing := missing + [i];
      }
      i := i + 1;
    }
  }

  /**
   * `fetch_segment`: one request, and what it leaves in the part file. Only this part can change, and only to what
   * arrived; it is there when the segment counts as stored, and nothing changes when the resource has.
   */
  method FetchSegment(parts: Parts, i: nat, response: Response) returns (fetched: Fetched, after: Parts)
    ensures forall j | j != i :: (j in after <==> j in parts) && (j in parts ==> after[j] == parts[j])
    ensures fetched.Stored? <==> response.Partial? && !response.broken
    ensures fetched.Changed? <==> response.Full? || response.NotSatisfiable? || response.Other?
    ensures fetched.Transient? <==> response.Retryable? || response.NoResponse? || (response.Partial? && response.broken)
    ensures response.Partial? ==> i in after && after[i] == response.arrived
    ensures !response.Partial? ==> after == parts
    ensures after == After(parts, i, response)
  {
    match response
    case NoResponse => return Transient, parts;
    case Partial(arrived, broken) => return if broken then Transient else Stored, parts[i := arrived];
    case Full => return Changed, parts;
    case NotSatisfiable => return Changed, parts;
    case Retryable => return Transient, parts;
    case Other => return Changed, parts;
  }

  lemma {:induction false} RoundSkips(parts: Parts, segments: seq<Segment>, server: (nat, nat) -> Response, attempt: nat, lo: nat, hi: nat)
    requires 1 <= lo <= hi <= |segments| && forall i | lo <= i < hi :: Complete(parts, segments, i)
    ensures Round(parts, segments, server, attempt, hi) == Round(parts, segments, server, attempt, lo)
    decreases hi
  {
    if lo < hi {
      RoundSkips(parts, segments, server, attempt, lo, hi - 1);
    }
  }

  /** Everything missing is requested once; the requests touch different parts, so their order does not matter. */
  method FetchMissing(parts: Parts, segments: seq<Segment>, missing: seq<nat>, server: (nat, nat) -> Response, attempt: nat)
    returns (changed: bool, after: Parts)
    requires forall i :: i in missing <==> 1 <= i < |segments| && !Complete(parts, segments, i)
    requires forall a, b | 0 <= a < b < |missing| :: missing[a] < missing[b]
    ensures changed <==> ChangedIn(parts, segments, server, attempt)
    ensures after == Round(parts, segments, server, attempt, |segments|)
  {
    changed, after := false, parts;
    hide Complete, After;
    ghost var next: nat := if |segments| == 0 then 0 else 1;
    assert forall a | 0 <= a < |missing| :: missing[a] in missing;
    for n := 0 to |missing|
      invariant next <= |segments| && (segments != [] ==> next >= 1)
      invariant after == Round(parts, segments, server, attempt, next)
      invariant forall a | 0 <= a < n :: missing[a] < next
      invariant forall a | n <= a < |missing| :: missing[a] >= next
      invariant changed <==> exists a | 0 <= a < n :: Refused(server(attempt, missing[a]))
    {
      var i := missing[n];
      assert i in missing;
      SkipsTo(parts, segments, missing, server, attempt, next, i, n);
      var fetched;
      fetched, after := FetchSegment(after, i, server(attempt, i));
      changed := changed || fetched.Changed?;
      next := i + 1;
    }
    if segments != [] {
      SkipsTo(parts, segments, missing, server, attempt, next, |segments|, |missing|);
    }
  }

  lemma SkipsTo(parts: Parts, segments: seq<Segment>, missing: seq<nat>, server: (nat, nat) -> Response, attempt: nat,
                lo: nat, hi: nat, n: nat)
    requires forall i :: i in missing <==> 1 <= i < |segments| && !Complete(parts, segments, i)
    requires n <= |missing| && 1 <= lo <= hi <= |segments|
    requires forall a | 0 <= a < n :: missing[a] < lo
    requires forall a | n <= a < |missing| :: missing[a] >= hi
    ensures Round(parts, segments, server, attempt, hi) == Round(parts, segments, server, attempt, lo)
  {
    hide Complete, After;
    forall i | lo <= i < hi ensures i !in missing {
      assert forall a | 0 <= a < |missing| :: missing[a] != i;
    }
    RoundSkips(parts, segments, server, attempt, lo, hi);
  }

  /** `concat_parts`: the parts one behind the other. */
  method ConcatParts(parts: Parts, count: nat) returns (whole: Bytes)
    requires forall i | 0 <= i < count :: i in parts
    ensures whole == Joined(parts, count)
  {
    whole := [];
    for i := 0 to count
      invariant whole == Joined(parts, i)
    {
      whole := whole + parts[i];
    }
  }

  function Joined(parts: Parts, count: nat): Bytes
    requires forall i | 0 <= i < count :: i in parts
  {
    if count == 0 then [] else Joined(parts, count - 1) + parts[count - 1]
  }

  ghost predicate WhatJoins(parts: Parts, count: nat, whole: Bytes) {
    (forall i | 0 <= i < count :: i in parts) && whole == Joined(parts, count)
  }

  /** The retry loop: ask for what is missing until nothing is, the resource changed, or the attempts are used up. */
  method Retry(first: Parts, segments: seq<Segment>, server: (nat, nat) -> Response) returns (r: Result<Parts, DownloadError>)
    ensures match Rounds(first, segments, server, 1)
            case Done(parts) => r == Ok(parts)
            case Aborted(error, _) => r == Err(error)
  {
    var parts := first;
    var attempt := 0;
    while true
      invariant attempt <= MAX_SEGMENT_ATTEMPTS
      invariant Rounds(first, segments, server, 1) == Rounds(parts, segments, server, attempt + 1)
      decreases MAX_SEGMENT_ATTEMPTS - attempt
    {
      hide Complete, Round, ChangedIn;
      attempt := attempt + 1;
      if attempt > MAX_SEGMENT_ATTEMPTS {
        return Err(RetriesExhausted);
      }
      var missing := MissingSegments(parts, segments);
      if missing == [] {
        assert NothingMissing(parts, segments);
        return Ok(parts);
      }
      assert missing[0] in missing;
      var changed;
      changed, parts := FetchMissing(parts, segments, missing, server, attempt);
      if changed {
        return Err(ResourceChanged);
      }
    }
  }

  // ---------- what an honest server makes of it ----------

  /** Every part holds bytes of its own range of the one version. */
  ghost predicate Sound(parts: Parts, segments: seq<Segment>, resource: Bytes)
    requires forall i | 0 <= i < |segments| :: segments[i].start <= segments[i].end < |resource|
  {
    forall i: nat | i in parts && i < |segments| :: PartOf(parts[i], Slice(resource, segments[i]))
  }

  /** A round keeps every part within its own range, whatever breaks, and keeps the first part as it is. */
  lemma {:induction false} RoundKeepsSound(parts: Parts, segments: seq<Segment>, resource: Bytes, probe: Response,
                                           server: (nat, nat) -> Response, attempt: nat, n: nat)
    requires n <= |segments| && Honest(resource, segments, probe, server) && Sound(parts, segments, resource) && 0 in parts
    ensures var after := Round(parts, segments, server, attempt, n);
            Sound(after, segments, resource) && 0 in after && after[0] == parts[0]
  {
    hide PartOf, Complete, Slice;
    if n > 1 {
      RoundKeepsSound(parts, segments, resource, probe, server, attempt, n - 1);
    }
  }

  /** One request keeps them so, whatever comes of it, and a stored part is of its own range. */
  lemma FetchKeepsSound(parts: Parts, segments: seq<Segment>, resource: Bytes, probe: Response,
                        server: (nat, nat) -> Response, attempt: nat, i: nat)
    requires i < |segments| && Honest(resource, segments, probe, server) && Sound(parts, segments, resource)
    ensures var after := After(parts, i, server(attempt, i));
            && Sound(after, segments, resource)
            && (forall j | j != i :: (j in after <==> j in parts) && (j in parts ==> after[j] == parts[j]))
            && (server(attempt, i).Partial? ==> i in after && PartOf(after[i], Slice(resource, segments[i])))
            && (!server(attempt, i).Partial? ==> after == parts)
  {
    hide PartOf, Slice;
  }

  /** So does the whole loop, however it ends. */
  lemma {:induction false} RunKeepsSound(parts: Parts, segments: seq<Segment>, resource: Bytes, probe: Response,
                                         server: (nat, nat) -> Response, attempt: nat)
    requires Honest(resource, segments, probe, server) && Sound(parts, segments, resource) && 0 in parts
    ensures var run := Rounds(parts, segments, server, attempt);
            && Sound(run.parts, segments, resource) && 0 in run.parts && run.parts[0] == parts[0]
            && (run.Done? ==> NothingMissing(run.parts, segments))
    decreases MAX_SEGMENT_ATTEMPTS + 1 - attempt
  {
    hide Honest, Sound, NothingMissing, Round, ChangedIn;
    if attempt <= MAX_SEGMENT_ATTEMPTS && !NothingMissing(parts, segments) {
      RoundKeepsSound(parts, segments, resource, probe, server, attempt, |segments|);
      if ChangedIn(parts, segments, server, attempt) {
        return;
      }
      RunKeepsSound(Round(parts, segments, server, attempt, |segments|), segments, resource, probe, server, attempt + 1);
    }
  }

  lemma WholePart(bytes: Bytes, range: Bytes)
    requires PartOf(bytes, range) && |bytes| == |range|
    ensures bytes == range
  {
  }

  /** Joined sound parts are the first part followed by the rest of the resource. */
  lemma {:induction false} JoinedIs(parts: Parts, segments: seq<Segment>, resource: Bytes, n: nat)
    requires Cover(segments, |resource|) && 1 <= n <= |segments| && forall i | 0 <= i < n :: i in parts
    requires forall i | 0 <= i < |segments| :: segments[i].start <= segments[i].end < |resource|
    requires Sound(parts, segments, resource) && forall i | 1 <= i < n :: Complete(parts, segments, i)
    ensures segments[0].end <= segments[n - 1].end
    ensures Joined(parts, n) == parts[0] + resource[segments[0].end + 1..segments[n - 1].end + 1]
  {
    hide Cover, Sound, Complete, PartOf;
    if n == 1 {
      assert Joined(parts, 0) == [] && resource[segments[0].end + 1..segments[0].end + 1] == [];
    } else {
      JoinedIs(parts, segments, resource, n - 1);
      var s := segments[n - 1];
      CompleteIsSlice(parts, segments, resource, n - 1);
      Adjacent(segments, |resource|, n - 1);
      JoinRanges(resource, segments[0].end + 1, s.start, s.end + 1);
      Assoc(parts[0], resource[segments[0].end + 1..s.start], resource[s.start..s.end + 1]);
    }
  }

  lemma Adjacent(segments: seq<Segment>, total: nat, i: nat)
    requires Cover(segments, total) && 0 < i < |segments|
    ensures segments[i].start == segments[i - 1].end + 1
  {
  }

  lemma CompleteIsSlice(parts: Parts, segments: seq<Segment>, resource: Bytes, i: nat)
    requires i < |segments| && Complete(parts, segments, i)
    requires forall i | 0 <= i < |segments| :: segments[i].start <= segments[i].end < |resource|
    requires Sound(parts, segments, resource)
    ensures parts[i] == Slice(resource, segments[i])
  {
    hide PartOf;
    WholePart(parts[i], Slice(resource, segments[i]));
  }

  lemma JoinRanges(s: Bytes, a: nat, b: nat, c: nat)
    requires a <= b <= c <= |s|
    ensures s[a..b] + s[b..c] == s[a..c]
  {
  }

  /** The parts joined are the resource exactly when the first one, which nobody checks, is whole. */
  lemma JoinedIsResource(parts: Parts, segments: seq<Segment>, resource: Bytes)
    requires Cover(segments, |resource|) && segments != [] && 0 in parts && NothingMissing(parts, segments)
    requires forall i | 0 <= i < |segments| :: segments[i].start <= segments[i].end < |resource|
    requires Sound(parts, segments, resource)
    ensures forall i | 0 <= i < |segments| :: i in parts
    ensures Joined(parts, |segments|) == resource <==> |parts[0]| == segments[0].Size()
  {
    forall i | 0 <= i < |segments| ensures i in parts {
      assert i > 0 ==> Complete(parts, segments, i);
    }
    JoinedIs(parts, segments, resource, |segments|);
    var cut := segments[0].end + 1;
    assert segments[|segments| - 1].end + 1 == |resource| && segments[0].start == 0;
    FirstIsHead(parts, segments, resource);
    hide Cover, NothingMissing, Sound, Joined, PartOf, Slice;
    SameHead(parts[0], resource, cut);
    if |parts[0]| == cut {
      WholePart(parts[0], resource[..cut]);
    }
  }

  lemma FirstIsHead(parts: Parts, segments: seq<Segment>, resource: Bytes)
    requires segments != [] && 0 in parts && segments[0].start == 0
    requires forall i | 0 <= i < |segments| :: segments[i].start <= segments[i].end < |resource|
    requires Sound(parts, segments, resource)
    ensures PartOf(parts[0], resource[..segments[0].end + 1])
  {
    hide PartOf;
    assert Slice(resource, segments[0]) == resource[..segments[0].end + 1];
  }

  /** Before the same rest only the same head gives the same whole. */
  lemma SameHead(head: Bytes, whole: Bytes, cut: nat)
    requires cut <= |whole|
    ensures head + whole[cut..|whole|] == whole <==> head == whole[..cut]
  {
    assert whole == whole[..cut] + whole[cut..|whole|];
    if head + whole[cut..|whole|] == whole {
      assert |head| == cut && head == (head + whole[cut..|whole|])[..cut];
    }
  }

  // ---------- the download said of the answers alone ----------

  /** The whole range arrived, whether or not the transfer then broke. */
  predicate InFull(response: Response, segment: Segment) {
    response.Partial? && |response.arrived| == segment.Size()
  }

  /** No earlier round brought the whole part, so this one asks for it. */
  ghost predicate StillMissing(segments: seq<Segment>, server: (nat, nat) -> Response, i: nat, round: nat) {
    1 <= i < |segments| && forall k | 1 <= k < round :: !InFull(server(k, i), segments[i])
  }

  ghost predicate AllArrived(segments: seq<Segment>, server: (nat, nat) -> Response, round: nat) {
    forall i: nat :: !StillMissing(segments, server, i, round)
  }

  /** A request of this round was answered with 200, 416 or a status that is neither a success nor worth a retry. */
  ghost predicate RefusedIn(segments: seq<Segment>, server: (nat, nat) -> Response, round: nat) {
    exists i: nat :: StillMissing(segments, server, i, round)
                     && (server(round, i).Full? || server(round, i).NotSatisfiable? || server(round, i).Other?)
  }

  /** What is stored of each part when all have arrived by the third round. */
  ghost predicate HoldsAnswers(parts: Parts, segments: seq<Segment>, probe: Bytes, server: (nat, nat) -> Response) {
    && 0 in parts && parts[0] == probe
    && forall i: nat | 1 <= i < |segments| ::
         i in parts && if InFull(server(1, i), segments[i]) then parts[i] == server(1, i).arrived
                       else InFull(server(2, i), segments[i]) && parts[i] == server(2, i).arrived
  }

  /** The parts before a round are those that came whole, and some that did not. */
  ghost predicate PartsBefore(parts: Parts, segments: seq<Segment>, probe: Bytes, server: (nat, nat) -> Response, round: nat) {
    && 0 in parts && parts[0] == probe
    && forall i: nat | 1 <= i < |segments| :: PartBefore(parts, segments, server, i, round)
  }

  ghost predicate PartBefore(parts: Parts, segments: seq<Segment>, server: (nat, nat) -> Response, i: nat, round: nat)
    requires i < |segments|
  {
    if StillMissing(segments, server, i, round) then !Complete(parts, segments, i)
    else exists k :: 1 <= k < round && StillMissing(segments, server, i, k) && InFull(server(k, i), segments[i])
                     && i in parts && parts[i] == server(k, i).arrived
  }

  /** What a round leaves of one part. */
  lemma {:induction false} RoundAt(parts: Parts, segments: seq<Segment>, server: (nat, nat) -> Response, attempt: nat, n: nat, i: nat)
    requires n <= |segments|
    ensures var after := Round(parts, segments, server, attempt, n);
            var one := if 1 <= i < n && !Complete(parts, segments, i) then After(parts, i, server(attempt, i)) else parts;
            (i in after <==> i in one) && (i in one ==> after[i] == one[i])
    decreases n
  {
    if n > 1 {
      RoundAt(parts, segments, server, attempt, n - 1, i);
      RoundAt(parts, segments, server, attempt, n - 1, n - 1);
    }
  }

  lemma PartsNext(parts: Parts, segments: seq<Segment>, probe: Bytes, server: (nat, nat) -> Response, round: nat)
    requires round >= 1 && PartsBefore(parts, segments, probe, server, round)
    ensures PartsBefore(Round(parts, segments, server, round, |segments|), segments, probe, server, round + 1)
  {
    hide Round;
    var after := Round(parts, segments, server, round, |segments|);
    RoundAt(parts, segments, server, round, |segments|, 0);
    hide PartBefore;
    var next := round + 1;
    forall i: nat | 1 <= i < |segments| ensures PartBefore(after, segments, server, i, next) {
      assert PartBefore(parts, segments, server, i, round);
      RoundAt(parts, segments, server, round, |segments|, i);
      PartNext(parts, after, segments, server, i, round);
    }
  }

  lemma PartNext(parts: Parts, after: Parts, segments: seq<Segment>, server: (nat, nat) -> Response, i: nat, round: nat)
    requires 1 <= round && 1 <= i < |segments| && PartBefore(parts, segments, server, i, round)
    requires var one := if Complete(parts, segments, i) then parts else After(parts, i, server(round, i));
             (i in after <==> i in one) && (i in one ==> after[i] == one[i])
    ensures PartBefore(after, segments, server, i, round + 1)
  {
    if StillMissing(segments, server, i, round) {
      if InFull(server(round, i), segments[i]) {
        assert !StillMissing(segments, server, i, round + 1);
        assert i in after && after[i] == server(round, i).arrived;
      } else {
        assert StillMissing(segments, server, i, round + 1);
      }
    } else {
      assert !StillMissing(segments, server, i, round + 1);
    }
  }

  lemma MissingIs(parts: Parts, segments: seq<Segment>, probe: Bytes, server: (nat, nat) -> Response, round: nat)
    requires PartsBefore(parts, segments, probe, server, round)
    ensures NothingMissing(parts, segments) <==> AllArrived(segments, server, round)
    ensures ChangedIn(parts, segments, server, round) <==> RefusedIn(segments, server, round)
  {
    forall i: nat | 1 <= i < |segments| ensures Complete(parts, segments, i) <==> !StillMissing(segments, server, i, round) {
      assert PartBefore(parts, segments, server, i, round);
    }
    if ChangedIn(parts, segments, server, round) {
      var i :| 1 <= i < |segments| && !Complete(parts, segments, i) && Refused(server(round, i));
      assert StillMissing(segments, server, i, round);
    }
  }

  /** The rounds end as the answers say. */
  lemma {:induction false} RoundsEnd(parts: Parts, segments: seq<Segment>, probe: Bytes, server: (nat, nat) -> Response, round: nat)
    requires 1 <= round <= 4 && PartsBefore(parts, segments, probe, server, round)
    requires forall k | 1 <= k < round :: !RefusedIn(segments, server, k) && !AllArrived(segments, server, k)
    ensures var run := Rounds(parts, segments, server, round);
            && ((run.Aborted? && run.error == ResourceChanged) <==> exists k | 1 <= k <= 3 :: RefusedIn(segments, server, k))
            && (run.Done? <==> AllArrived(segments, server, 3) && forall k | 1 <= k <= 3 :: !RefusedIn(segments, server, k))
            && (run.Aborted? ==> run.error == ResourceChanged || run.error == RetriesExhausted)
            && (run.Done? ==> exists k :: 1 <= k <= 3 && PartsBefore(run.parts, segments, probe, server, k) && AllArrived(segments, server, k))
    decreases 4 - round
  {
    hide PartsBefore, Round, ChangedIn, NothingMissing, StillMissing;
    MissingIs(parts, segments, probe, server, round);
    if round <= 3 {
      if AllArrived(segments, server, round) {
        forall k | round <= k <= 3 ensures AllArrived(segments, server, k) && !RefusedIn(segments, server, k) {
          StaysArrived(segments, server, round, k);
        }
      } else if !RefusedIn(segments, server, round) {
        PartsNext(parts, segments, probe, server, round);
        RoundsEnd(Round(parts, segments, server, round, |segments|), segments, probe, server, round + 1);
      }
    }
  }

  lemma StaysArrived(segments: seq<Segment>, server: (nat, nat) -> Response, a: nat, b: nat)
    requires a <= b && AllArrived(segments, server, a)
    ensures AllArrived(segments, server, b) && !RefusedIn(segments, server, b)
  {
    forall i: nat ensures !StillMissing(segments, server, i, b) {
      assert !StillMissing(segments, server, i, a);
    }
  }

  /** A first round that is answered badly but not refused, and a second that brings all the rest: the download succeeds. */
  lemma SecondRoundSuffices(segments: seq<Segment>, server: (nat, nat) -> Response)
    requires forall i: nat | 1 <= i < |segments| :: server(1, i).Partial? || server(1, i).Retryable? || server(1, i).NoResponse?
    requires forall i: nat | 1 <= i < |segments| && !InFull(server(1, i), segments[i]) :: InFull(server(2, i), segments[i])
    ensures AllArrived(segments, server, 3) && forall round | 1 <= round <= 3 :: !RefusedIn(segments, server, round)
  {
    forall i: nat ensures !StillMissing(segments, server, i, 3) {
      if 1 <= i < |segments| {
        assert InFull(server(1, i), segments[i]) || InFull(server(2, i), segments[i]);
      }
    }
    forall i: nat | StillMissing(segments, server, i, 2) ensures InFull(server(2, i), segments[i]) {
      assert !InFull(server(1, i), segments[i]);
    }
  }

  lemma HoldsAtEnd(parts: Parts, segments: seq<Segment>, probe: Bytes, server: (nat, nat) -> Response, round: nat)
    requires 1 <= round <= 3 && PartsBefore(parts, segments, probe, server, round) && AllArrived(segments, server, round)
    ensures HoldsAnswers(parts, segments, probe, server)
  {
    forall i: nat | 1 <= i < |segments|
      ensures i in parts && if InFull(server(1, i), segments[i]) then parts[i] == server(1, i).arrived
                            else InFull(server(2, i), segments[i]) && parts[i] == server(2, i).arrived
    {
      assert PartBefore(parts, segments, server, i, round) && !StillMissing(segments, server, i, round);
      var k :| 1 <= k < round && StillMissing(segments, server, i, k) && InFull(server(k, i), segments[i])
                     && i in parts && parts[i] == server(k, i).arrived;
      assert k == 1 || k == 2;
    }
  }

  lemma StartOfRounds(segments: seq<Segment>, probe: Bytes, server: (nat, nat) -> Response)
    ensures PartsBefore(map[0 := probe], segments, probe, server, 1)
  {
  }

  /**
   * `try_segmented_download`, from the size in the HEAD response on and with no part files left over. With a server that
   * honours If-Range a successful download is the whole resource, for every pattern of broken and failed
   * requests, provided the body of the probe was not shorter than its range; otherwise it is not the resource.
   */
  method TrySegmentedDownload(total: nat, maxConn: nat, probe: Response, server: (nat, nat) -> Response, ghost resource: Bytes)
    returns (r: Result<Bytes, DownloadError>, segments: seq<Segment>)
    ensures segments != [] <==> total >= MIN_SEGMENT_BYTES
    ensures segments != [] ==> Cover(segments, total) && |segments| == SegmentCount(total, maxConn) && Even(segments, total)
    ensures if segments == [] then r == Err(TooSmall)
            else if !probe.Partial? || probe.broken then r == Err(ProbeFailed)
            else match Rounds(map[0 := probe.arrived], segments, server, 1)
                 case Done(_) => r.Ok?
                 case Aborted(error, _) => r == Err(error)
    ensures segments != [] && probe.Partial? && !probe.broken ==>
              && (r == Err(ResourceChanged) <==> exists round | 1 <= round <= 3 :: RefusedIn(segments, server, round))
              && (r.Ok? <==> AllArrived(segments, server, 3) && forall round | 1 <= round <= 3 :: !RefusedIn(segments, server, round))
              && (r.Err? ==> r.error == ResourceChanged || r.error == RetriesExhausted)
    ensures r.Ok? ==> exists parts :: HoldsAnswers(parts, segments, probe.arrived, server) && WhatJoins(parts, |segments|, r.value)
    ensures r.Ok? ==> var parts := Rounds(map[0 := probe.arrived], segments, server, 1).parts;
              (forall i | 0 <= i < |segments| :: i in parts) && r.value == Joined(parts, |segments|)
    ensures r.Ok? && |resource| == total && Honest(resource, segments, probe, server) ==>
              (r.value == resource <==> |probe.arrived| == segments[0].Size())
  {
    segments := [];
    if total < MIN_SEGMENT_BYTES {
      return Err(TooSmall), segments;
    }
    segments := PlanSegments(total, maxConn);
    if !probe.Partial? || probe.broken {
      return Err(ProbeFailed), segments;
    }
    hide Complete, Cover, Even, Rounds, AllArrived, RefusedIn, PartsBefore, HoldsAnswers, Joined;
    var first: Parts := map[0 := probe.arrived];
    StartOfRounds(segments, probe.arrived, server);
    RoundsEnd(first, segments, probe.arrived, server, 1);
    var retried := Retry(first, segments, server);
    if retried.Err? {
      return Err(retried.error), segments;
    }
    Present(first, segments, server, 1);
    if |resource| == total && Honest(resource, segments, probe, server) {
      RunKeepsSound(first, segments, resource, probe, server, 1);
      JoinedIsResource(retried.value, segments, resource);
    }
    ghost var round :| 1 <= round <= 3 && PartsBefore(retried.value, segments, probe.arrived, server, round)
                       && AllArrived(segments, server, round);
    HoldsAtEnd(retried.value, segments, probe.arrived, server, round);
    var whole := ConcatParts(retried.value, |segments|);
    return Ok(whole), segments;
  }

  /** When the loop is done every part is present. */
  lemma {:induction false} Present(parts: Parts, segments: seq<Segment>, server: (nat, nat) -> Response, attempt: nat)
    requires 0 in parts
    ensures var run := Rounds(parts, segments, server, attempt);
            run.Done? ==> forall i | 0 <= i < |segments| :: i in run.parts
    decreases MAX_SEGMENT_ATTEMPTS + 1 - attempt
  {
    if attempt <= MAX_SEGMENT_ATTEMPTS && NothingMissing(parts, segments) {
      forall i | 0 <= i < |segments| ensures i in parts {
        assert i > 0 ==> Complete(parts, segments, i);
      }
    } else if attempt <= MAX_SEGMENT_ATTEMPTS {
      RoundKeepsFirst(parts, segments, server, attempt, |segments|);
      Present(Round(parts, segments, server, attempt, |segments|), segments, server, attempt + 1);
    }
  }

  lemma {:induction false} RoundKeepsFirst(parts: Parts, segments: seq<Segment>, server: (nat, nat) -> Response, attempt: nat, n: nat)
    requires n <= |segments| && 0 in parts
    ensures 0 in Round(parts, segments, server, attempt, n)
  {
    if n > 1 {
      RoundKeepsFirst(parts, segments, server, attempt, n - 1);
    }
  }

  /** A short body of the probe goes unnoticed: a file of one segment comes out as whatever arrived. */
  method ShortProbeUnnoticed(arrived: Bytes, server: (nat, nat) -> Response) returns (r: Result<Bytes, DownloadError>)
    ensures r == Ok(arrived)
  {
    var segments;
    r, segments := TrySegmentedDownload(MIN_SEGMENT_BYTES, 1, Partial(arrived, false), server, []);
    ghost var first: Parts := map[0 := arrived];
    assert NothingMissing(first, segments);
    assert Joined(first, 0) == [] && Joined(first, 1) == [] + arrived == arrived;
  }

  // ---------- how many rounds count ----------

  /** The servers answer alike in this round. */
  ghost predicate AlikeIn(a: (nat, nat) -> Response, b: (nat, nat) -> Response, attempt: nat) {
    forall i :: a(attempt, i) == b(attempt, i)
  }

  lemma {:induction false} RoundAlike(parts: Parts, segments: seq<Segment>, a: (nat, nat) -> Response, b: (nat, nat) -> Response,
                                      attempt: nat, n: nat)
    requires n <= |segments| && AlikeIn(a, b, attempt)
    ensures Round(parts, segments, a, attempt, n) == Round(parts, segments, b, attempt, n)
    ensures ChangedIn(parts, segments, a, attempt) <==> ChangedIn(parts, segments, b, attempt)
  {
    hide Complete, Refused, After;
    if n > 1 {
      RoundAlike(parts, segments, a, b, attempt, n - 1);
    }
  }

  /** Something missing at the last attempt means failure, whatever the server answers. */
  lemma LastAttemptFails(parts: Parts, segments: seq<Segment>, server: (nat, nat) -> Response)
    requires !NothingMissing(parts, segments)
    ensures Rounds(parts, segments, server, MAX_SEGMENT_ATTEMPTS).Aborted?
  {
    hide NothingMissing, ChangedIn, Round;
  }

  /**
   * What the third round fetches is never looked at: whether the download succeeds, and with which parts, is
   * decided by the answers of the first two rounds.
   */
  lemma {:induction false} ThirdRoundIsWasted(parts: Parts, segments: seq<Segment>, a: (nat, nat) -> Response, b: (nat, nat) -> Response,
                                              attempt: nat)
    requires 1 <= attempt <= MAX_SEGMENT_ATTEMPTS && forall k | attempt <= k < MAX_SEGMENT_ATTEMPTS :: AlikeIn(a, b, k)
    ensures var x, y := Rounds(parts, segments, a, attempt), Rounds(parts, segments, b, attempt);
            (x.Done? <==> y.Done?) && (x.Done? ==> x.parts == y.parts)
    decreases MAX_SEGMENT_ATTEMPTS - attempt
  {
    hide NothingMissing, ChangedIn, Round, AlikeIn;
    if attempt == MAX_SEGMENT_ATTEMPTS {
      if !NothingMissing(parts, segments) {
        LastAttemptFails(parts, segments, a);
        LastAttemptFails(parts, segments, b);
      }
    } else {
      RoundAlike(parts, segments, a, b, attempt, |segments|);
      ThirdRoundIsWasted(Round(parts, segments, a, attempt, |segments|), segments, a, b, attempt + 1);
    }
  }

  /** Every missing part was sent in full in this round. */
  ghost predicate AnsweredInFull(parts: Parts, segments: seq<Segment>, server: (nat, nat) -> Response, attempt: nat) {
    forall i: nat | 1 <= i < |segments| && !Complete(parts, segments, i) ::
      && server(attempt, i).Partial? && !server(attempt, i).broken && |server(attempt, i).arrived| == segments[i].Size()
  }

  lemma {:induction false} RoundFills(parts: Parts, segments: seq<Segment>, server: (nat, nat) -> Response, attempt: nat, n: nat, i: nat)
    requires n <= |segments| && i < |segments| && AnsweredInFull(parts, segments, server, attempt)
    ensures var after := Round(parts, segments, server, attempt, n);
            if 1 <= i < n then Complete(after, segments, i)
            else (i in after <==> i in parts) && (i in parts ==> after[i] == parts[i])
  {
    if n > 1 {
      RoundFills(parts, segments, server, attempt, n - 1, i);
    }
  }

  /** One of the first two rounds answered in full is enough. */
  lemma FullRoundSuffices(parts: Parts, segments: seq<Segment>, server: (nat, nat) -> Response, attempt: nat)
    requires 1 <= attempt < MAX_SEGMENT_ATTEMPTS && AnsweredInFull(parts, segments, server, attempt)
    ensures Rounds(parts, segments, server, attempt).Done?
  {
    if !NothingMissing(parts, segments) {
      assert !ChangedIn(parts, segments, server, attempt);
      forall i | 1 <= i < |segments| ensures Complete(Round(parts, segments, server, attempt, |segments|), segments, i) {
        RoundFills(parts, segments, server, attempt, |segments|, i);
      }
    }
  }
}
