/**
 Putting requests together from the chunks of a connection
 (`src/relay/transport.rs`, `process` and `handle_incoming`).
 */
module Transport {
  import opened Prelude
  import SecureChannels

  type Binding = SecureChannels.Binding

  /** What a peer may send to get a channel. */
  const MAX_OPEN_SIZE: nat := 64 * 1024

  datatype End = Final | Intermediate | Aborted

  /** A chunk; of an OpenSecureChannel with the policy and certificate it shows. */
  datatype Chunk = Chunk(opens: Option<Binding>, end: End, size: nat, data: string)

  /** What is checked against the outside: security and sequence number of the
      chunk, and whether the complete message decodes, or at least its header. */
  datatype Checks = Checks(secured: bool, inOrder: bool, decodes: bool, hasHeader: bool)

  datatype Limits = Limits(chunks: nat, size: nat)

  datatype Incoming = Incoming(pending: seq<Chunk>, bytes: nat, binding: Option<Binding>, closed: bool)

  const FRESH: Incoming := Incoming([], 0, None, false)

  datatype Output = Nothing | Request(chunks: seq<Chunk>) | Recoverable(chunks: seq<Chunk>) | Failed

  function Limit(limits: Limits, binding: Option<Binding>): nat {
    if binding.None? then MAX_OPEN_SIZE else limits.size
  }

  /** Nothing but OpenSecureChannel before there is a channel, and afterwards only
      one that shows the security of the channel. */
  predicate Acceptable(binding: Option<Binding>, chunk: Chunk) {
    if binding.None? then chunk.opens.Some?
    else chunk.opens.Some? ==> chunk.opens == binding
  }

  predicate Fits(limits: Limits, t: Incoming, chunk: Chunk) {
    |t.pending| < limits.chunks && t.bytes + chunk.size <= Limit(limits, t.binding)
  }

  function Cleared(t: Incoming, closed: bool): Incoming {
    t.(pending := [], bytes := 0, closed := closed)
  }

  function Received(limits: Limits, t: Incoming, chunk: Chunk, checks: Checks): (Incoming, Output) {
    if t.closed then (t, Nothing)
    else if !Acceptable(t.binding, chunk) then (Cleared(t, true), Failed)
    else if chunk.end.Aborted? then (Cleared(t, false), Nothing)
    else if !checks.secured || !Fits(limits, t, chunk) || !checks.inOrder then (Cleared(t, true), Failed)
    else
      var pending := t.pending + [chunk];
      if chunk.end.Intermediate? then (t.(pending := pending, bytes := t.bytes + chunk.size), Nothing)
      else if checks.decodes then (Cleared(t, false), Request(pending))
      else if checks.hasHeader then (Cleared(t, false), Recoverable(pending))
      else (Cleared(t, true), Failed)
  }

  class Downstream {
    const limits: Limits
    var pending: seq<Chunk>
    var bytes: nat
    var binding: Option<Binding>
    var closed: bool

    function Value(): Incoming
      reads this
    {
      Incoming(pending, bytes, binding, closed)
    }

    constructor (limits: Limits)
      ensures this.limits == limits && Value() == FRESH
    {
      this.limits := limits;
      pending, bytes, binding, closed := [], 0, None, false;
    }

    /** Handles what was read: a message or an error starts a new request. */
    method HandleIncoming(chunk: Chunk, checks: Checks) returns (output: Output)
      modifies this
      ensures (Value(), output) == Received(limits, old(Value()), chunk, checks)
    {
      if closed {
        return Nothing;
      }
      output := Process(chunk, checks);
      match output {
        case Nothing =>
        case Request(_) => pending, bytes := [], 0;
        case Recoverable(_) => pending, bytes := [], 0;
        case Failed => pending, bytes, closed := [], 0, true;
      }
    }

    method Process(chunk: Chunk, checks: Checks) returns (output: Output)
      requires !closed
      modifies this
      ensures closed == old(closed) && binding == old(binding)
      ensures var (after, result) := Received(limits, old(Value()), chunk, checks);
        output == result && (result.Nothing? ==> Value() == after)
    {
      if binding.None? && chunk.opens.None? {
        return Failed;
      }
      if chunk.opens.Some? && binding.Some? && chunk.opens.value != binding.value {
        return Failed;
      }
      if chunk.end.Aborted? {
        // The client gave up a request of several chunks.
        pending, bytes := [], 0;
        return Nothing;
      }
      if !checks.secured {
        return Failed;
      }
      if |pending| >= limits.chunks {
        return Failed;
      }
      bytes := bytes + chunk.size;
      if bytes > Limit(limits, binding) {
        return Failed;
      }
      if !checks.inOrder {
        return Failed;
      }
      pending := pending + [chunk];
      if chunk.end.Intermediate? {
        return Nothing;
      }
      output := if checks.decodes then Request(pending) else if checks.hasHeader then Recoverable(pending) else Failed;
    }
  }

  // ----- runs -----

  /** A chunk arrives, or the connection issues the channel. */
  datatype Event = Arrive(chunk: Chunk, checks: Checks) | Issue(binding: Binding)

  /** How a chunk was taken: what was found about it, and the channel then. */
  datatype Seen = Seen(checks: Checks, binding: Option<Binding>)

  /** Besides the state: the chunks that were taken, how each was, and the
      requests they made. */
  datatype World = World(t: Incoming, taken: seq<Chunk>, seen: seq<Seen>, requests: seq<seq<Chunk>>)

  const START: World := World(FRESH, [], [], [])

  function Next(limits: Limits, w: World, e: Event): World {
    match e
    case Arrive(chunk, checks) =>
      if w.t.closed then w
      else
        var (t, output) := Received(limits, w.t, chunk, checks);
        if output.Failed? then w.(t := t)
        else World(t, w.taken + [chunk], w.seen + [Seen(checks, w.t.binding)],
                   if output.Nothing? then w.requests else w.requests + [output.chunks])
    case Issue(binding) =>
      // Only while a complete request is handled, and only once.
      if w.t.binding.None? && w.t.pending == [] && !w.t.closed then w.(t := w.t.(binding := Some(binding))) else w
  }

  function Run(limits: Limits, w: World, events: seq<Event>): World
    decreases events
  {
    if events == [] then w else Run(limits, Next(limits, w, events[0]), events[1..])
  }

  // ----- what is buffered -----

  function Size(chunks: seq<Chunk>): nat {
    if chunks == [] then 0 else Size(chunks[..|chunks| - 1]) + Last(chunks).size
  }

  /** The bytes are those of the pending chunks, within the limits; without a
      channel they are all of an OpenSecureChannel. */
  ghost predicate Bounded(limits: Limits, t: Incoming) {
    && t.bytes == Size(t.pending) <= Limit(limits, t.binding)
    && |t.pending| <= limits.chunks
    && (t.binding.None? ==> forall c :: c in t.pending ==> c.opens.Some?)
  }

  lemma {:induction false} RunStaysBounded(limits: Limits, w: World, events: seq<Event>)
    requires Bounded(limits, w.t)
    ensures Bounded(limits, Run(limits, w, events).t)
    decreases events
  {
    if events != [] {
      if events[0].Arrive? {
        assert (w.t.pending + [events[0].chunk])[..|w.t.pending|] == w.t.pending;
      }
      RunStaysBounded(limits, Next(limits, w, events[0]), events[1..]);
    }
  }

  /** Whatever a client sends, no more than the limits is held in memory, and
      before a channel exists nothing but an OpenSecureChannel of 64 KiB. */
  lemma BufferIsBounded(limits: Limits, events: seq<Event>)
    ensures var t := Run(limits, START, events).t;
      && Size(t.pending) <= (if t.binding.None? then 64 * 1024 else limits.size)
      && |t.pending| <= limits.chunks
      && (t.binding.None? ==> forall c :: c in t.pending ==> c.opens.Some?)
  {
    RunStaysBounded(limits, START, events);
  }

  // ----- what is put together -----

  function Finals(chunks: seq<Chunk>): nat {
    if chunks == [] then 0 else Finals(chunks[..|chunks| - 1]) + (if Last(chunks).end.Final? then 1 else 0)
  }

  /** A stretch of intermediate chunks and one final one, which begins where the
      request before it ended or was given up. */
  ghost predicate IsRequest(taken: seq<Chunk>, a: int, b: int) {
    && 0 <= a < b <= |taken|
    && taken[b - 1].end.Final?
    && (forall i :: a <= i < b - 1 ==> taken[i].end.Intermediate?)
    && (a > 0 ==> !taken[a - 1].end.Intermediate?)
  }

  /** The `k`th request is the stretch that the `k`th final chunk ends. */
  ghost predicate IsKth(taken: seq<Chunk>, request: seq<Chunk>, k: nat) {
    exists a, b :: IsStretch(taken, request, k, a, b)
  }

  ghost predicate IsStretch(taken: seq<Chunk>, request: seq<Chunk>, k: nat, a: int, b: int) {
    IsRequest(taken, a, b) && request == taken[a..b] && Finals(taken[..b]) == k + 1
  }

  /** What is pending are the chunks since the last request ended. */
  ghost predicate IsRest(taken: seq<Chunk>, pending: seq<Chunk>) {
    && |pending| <= |taken| && pending == taken[|taken| - |pending|..]
    && (forall c :: c in pending ==> c.end.Intermediate?)
    && (|pending| < |taken| ==> !taken[|taken| - |pending| - 1].end.Intermediate?)
  }

  /** One request for each final chunk. */
  ghost predicate AreRequests(taken: seq<Chunk>, requests: seq<seq<Chunk>>) {
    |requests| == Finals(taken) && forall k :: 0 <= k < |requests| ==> IsKth(taken, requests[k], k)
  }

  ghost predicate PutTogether(w: World) {
    && AreRequests(w.taken, w.requests)
    && (!w.t.closed ==> IsRest(w.taken, w.t.pending))
  }

  lemma EarlierRequestsStay(taken: seq<Chunk>, chunk: Chunk, request: seq<Chunk>, k: nat)
    requires IsKth(taken, request, k)
    ensures IsKth(taken + [chunk], request, k)
  {
    var a, b :| IsStretch(taken, request, k, a, b);
    var more := taken + [chunk];
    assert more[..b] == taken[..b] && more[a..b] == taken[a..b];
    assert IsStretch(more, request, k, a, b);
  }

  lemma FinalEndsRequest(taken: seq<Chunk>, pending: seq<Chunk>, chunk: Chunk)
    requires IsRest(taken, pending) && chunk.end.Final?
    ensures IsKth(taken + [chunk], pending + [chunk], Finals(taken))
  {
    var more := taken + [chunk];
    var a, b := |taken| - |pending|, |more|;
    RestEndsRequest(taken, pending, chunk);
    assert more[a..b] == pending + [chunk];
    assert more[..b] == more && more[..b - 1] == taken;
    assert IsStretch(more, pending + [chunk], Finals(taken), a, b);
  }

  lemma RestEndsRequest(taken: seq<Chunk>, pending: seq<Chunk>, chunk: Chunk)
    requires IsRest(taken, pending) && chunk.end.Final?
    ensures IsRequest(taken + [chunk], |taken| - |pending|, |taken| + 1)
  {
    var more, a := taken + [chunk], |taken| - |pending|;
    forall i | a <= i < |taken| ensures more[i].end.Intermediate? {
      assert more[i] == pending[i - a];
    }
  }

  lemma OneMoreFinal(taken: seq<Chunk>, chunk: Chunk)
    ensures Finals(taken + [chunk]) == Finals(taken) + (if chunk.end.Final? then 1 else 0)
  {
    assert (taken + [chunk])[..|taken|] == taken;
  }

  lemma RequestsStay(taken: seq<Chunk>, chunk: Chunk, requests: seq<seq<Chunk>>)
    requires AreRequests(taken, requests) && !chunk.end.Final?
    ensures AreRequests(taken + [chunk], requests)
  {
    OneMoreFinal(taken, chunk);
    AllEarlierStay(taken, chunk, requests);
  }

  lemma OneMoreRequest(taken: seq<Chunk>, pending: seq<Chunk>, chunk: Chunk, requests: seq<seq<Chunk>>)
    requires AreRequests(taken, requests) && IsRest(taken, pending) && chunk.end.Final?
    ensures AreRequests(taken + [chunk], requests + [pending + [chunk]])
  {
    var more := requests + [pending + [chunk]];
    OneMoreFinal(taken, chunk);
    FinalEndsRequest(taken, pending, chunk);
    AllEarlierStay(taken, chunk, requests);
    assert forall k :: 0 <= k < |requests| ==> more[k] == requests[k];
  }

  lemma AllEarlierStay(taken: seq<Chunk>, chunk: Chunk, requests: seq<seq<Chunk>>)
    requires forall k :: 0 <= k < |requests| ==> IsKth(taken, requests[k], k)
    ensures forall k :: 0 <= k < |requests| ==> IsKth(taken + [chunk], requests[k], k)
  {
    forall k | 0 <= k < |requests| ensures IsKth(taken + [chunk], requests[k], k) {
      EarlierRequestsStay(taken, chunk, requests[k], k);
    }
  }

  lemma RestGoesOn(taken: seq<Chunk>, pending: seq<Chunk>, chunk: Chunk)
    requires IsRest(taken, pending)
    ensures chunk.end.Intermediate? ==> IsRest(taken + [chunk], pending + [chunk])
    ensures !chunk.end.Intermediate? ==> IsRest(taken + [chunk], [])
  {
  }

  /** What a chunk does to what is pending, unless it fails. */
  lemma TakenChunk(limits: Limits, t: Incoming, chunk: Chunk, checks: Checks)
    requires !t.closed
    ensures var (after, output) := Received(limits, t, chunk, checks);
      && (output.Failed? ==> after.closed)
      && (!output.Failed? ==>
            && (output.Nothing? <==> !chunk.end.Final?)
            && (!output.Nothing? ==> output.chunks == t.pending + [chunk])
            && after.pending == (if chunk.end.Intermediate? then t.pending + [chunk] else []))
  {
  }

  lemma ChunkKeepsTogether(taken: seq<Chunk>, pending: seq<Chunk>, requests: seq<seq<Chunk>>, chunk: Chunk)
    requires AreRequests(taken, requests) && IsRest(taken, pending)
    ensures AreRequests(taken + [chunk], if chunk.end.Final? then requests + [pending + [chunk]] else requests)
    ensures IsRest(taken + [chunk], if chunk.end.Intermediate? then pending + [chunk] else [])
  {
    RestGoesOn(taken, pending, chunk);
    if chunk.end.Final? {
      OneMoreRequest(taken, pending, chunk, requests);
    } else {
      RequestsStay(taken, chunk, requests);
    }
  }

  lemma ArrivalKeepsTogether(limits: Limits, w: World, chunk: Chunk, checks: Checks)
    requires PutTogether(w) && !w.t.closed
    ensures PutTogether(Next(limits, w, Arrive(chunk, checks)))
  {
    TakenChunk(limits, w.t, chunk, checks);
    ChunkKeepsTogether(w.taken, w.t.pending, w.requests, chunk);
  }

  lemma {:induction false} RunKeepsTogether(limits: Limits, w: World, events: seq<Event>)
    requires PutTogether(w)
    ensures PutTogether(Run(limits, w, events))
    decreases events
  {
    if events != [] {
      if events[0].Arrive? && !w.t.closed {
        ArrivalKeepsTogether(limits, w, events[0].chunk, events[0].checks);
      }
      RunKeepsTogether(limits, Next(limits, w, events[0]), events[1..]);
    }
  }

  /** Every request is made of exactly the chunks since the one before it ended
      or was given up, in order; there is one for each final chunk taken; and no
      chunk of a request that was given up, or of another one, gets into it. */
  lemma RequestsAreStretches(limits: Limits, events: seq<Event>)
    ensures var w := Run(limits, START, events);
      && |w.requests| == Finals(w.taken)
      && forall k :: 0 <= k < |w.requests| ==> IsKth(w.taken, w.requests[k], k)
  {
    RunKeepsTogether(limits, START, events);
  }

  // ----- what gets into a request -----

  /** A chunk that was taken, and not to give a request up, was secured and in
      order; it opened a channel if there was none, and else only if it showed
      the security of the channel; and the last one of a request could be read. */
  predicate IsSound(chunk: Chunk, seen: Seen) {
    && (seen.binding.None? ==> chunk.opens.Some?)
    && (seen.binding.Some? && chunk.opens.Some? ==> chunk.opens == seen.binding)
    && (!chunk.end.Aborted? ==> seen.checks.secured && seen.checks.inOrder)
    && (chunk.end.Final? ==> seen.checks.decodes || seen.checks.hasHeader)
  }

  ghost predicate AllSound(w: World) {
    && |w.seen| == |w.taken|
    && (forall i :: 0 <= i < |w.taken| ==> IsSound(w.taken[i], w.seen[i]))
    && (forall i :: 0 <= i < |w.seen| ==> w.seen[i].binding.None? || w.seen[i].binding == w.t.binding)
  }

  lemma {:induction false} RunStaysSound(limits: Limits, w: World, events: seq<Event>)
    requires AllSound(w)
    ensures AllSound(Run(limits, w, events))
    decreases events
  {
    if events != [] {
      RunStaysSound(limits, Next(limits, w, events[0]), events[1..]);
    }
  }

  /** Chunk `i` passed its checks, and opened a channel if there was none, or
      showed the security of the channel. */
  predicate IsSecured(w: World, i: nat)
    requires i < |w.taken| == |w.seen|
  {
    && w.seen[i].checks.secured && w.seen[i].checks.inOrder
    && (w.seen[i].binding.None? ==> w.taken[i].opens.Some?)
    && (w.seen[i].binding.Some? ==> w.seen[i].binding == w.t.binding)
    && (w.seen[i].binding.Some? && w.taken[i].opens.Some? ==> w.taken[i].opens == w.t.binding)
  }

  /** No request contains a chunk that was not secured, or out of order, or that
      showed another security than that of the channel. */
  lemma RequestsAreSecured(limits: Limits, events: seq<Event>, k: nat) returns (a: nat, b: nat)
    requires k < |Run(limits, START, events).requests|
    ensures var w := Run(limits, START, events);
      && a < b <= |w.taken| == |w.seen| && w.requests[k] == w.taken[a..b]
      && forall i :: a <= i < b ==> IsSecured(w, i)
  {
    var w := Run(limits, START, events);
    RequestsAreStretches(limits, events);
    RunStaysSound(limits, START, events);
    assert IsKth(w.taken, w.requests[k], k);
    a, b :| IsStretch(w.taken, w.requests[k], k, a, b);
    StretchIsSecured(w, a, b);
  }

  lemma StretchIsSecured(w: World, a: nat, b: nat)
    requires AllSound(w) && IsRequest(w.taken, a, b)
    ensures forall i :: a <= i < b ==> IsSecured(w, i)
  {
    forall i | a <= i < b ensures IsSecured(w, i) {
      assert IsSound(w.taken[i], w.seen[i]) && !w.taken[i].end.Aborted?;
    }
  }

  /** A chunk ends the connection exactly if it is not what may come, or, unless it
      gives a request up, it fails a check, is one too many, or makes the request
      too large, or completes one of which not even the header can be read. */
  lemma FailsExactlyIf(limits: Limits, t: Incoming, chunk: Chunk, checks: Checks)
    ensures t.closed ==> Received(limits, t, chunk, checks) == (t, Nothing)
    ensures var (after, output) := Received(limits, t, chunk, checks);
      !t.closed ==>
      && (output.Failed? <==> after.closed)
      && (output.Failed? <==>
           || (t.binding.None? && chunk.opens.None?)
           || (t.binding.Some? && chunk.opens.Some? && chunk.opens.value != t.binding.value)
           || (!chunk.end.Aborted?
               && (!checks.secured || !checks.inOrder || |t.pending| + 1 > limits.chunks
                   || t.bytes + chunk.size > (if t.binding.None? then 65_536 else limits.size)
                   || (chunk.end.Final? && !checks.decodes && !checks.hasHeader))))
      && (output.Request? ==> checks.decodes) && (output.Recoverable? ==> !checks.decodes)
  {
  }
}
