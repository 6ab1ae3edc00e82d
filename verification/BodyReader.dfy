/**
 Reading a response body chunk by chunk, up to a cap, optionally stopping right after a marker. The
 reader searches only what is new plus one marker width; the specification searches everything.
 */
module BodyReader {
  import opened Prelude

  type Bytes = seq<bv8>

  datatype Error = OverCap

  /** The caller's limits: the cap, whether to truncate at it, and the marker to stop after. */
  datatype Limits = Limits(maxBytes: nat, truncate: bool, stopAfter: Option<Bytes>)

  // ----- Searching -----

  predicate Occurs(b: Bytes, marker: Bytes, p: nat) {
    p + |marker| <= |b| && b[p..p + |marker|] == marker
  }

  /** The first occurrence at or after `from`. */
  function Find(b: Bytes, marker: Bytes, from: nat): (found: Option<nat>)
    ensures found.Some? ==>
      && from <= found.value && Occurs(b, marker, found.value)
      && forall q :: from <= q < found.value ==> !Occurs(b, marker, q)
    ensures found == None ==> forall q: nat :: from <= q ==> !Occurs(b, marker, q)
    decreases |b| - from
  {
    if from + |marker| > |b| then None
    else if Occurs(b, marker, from) then Some(from)
    else Find(b, marker, from + 1)
  }

  /** The length of the shortest prefix that ends in the marker. */
  function FirstEnd(b: Bytes, marker: Bytes): Option<nat> {
    var found := Find(b, marker, 0);
    if found.Some? then Some(found.value + |marker|) else None
  }

  /** What ends there is the marker ... */
  lemma EndIsTheMarkers(b: Bytes, marker: Bytes)
    ensures var end := FirstEnd(b, marker);
      end.Some? ==> |marker| <= end.value <= |b| && b[end.value - |marker|..end.value] == marker
  {
  }

  /** ... and wherever the marker stands in the body, one is found that ends there or earlier. */
  lemma MarkerIsFound(before: Bytes, marker: Bytes, rest: Bytes)
    ensures var end := FirstEnd(before + marker + rest, marker);
      end.Some? && end.value <= |before| + |marker|
  {
    var b := before + marker + rest;
    assert b[|before|..|before| + |marker|] == marker;
    assert Occurs(b, marker, |before|);
  }

  lemma OccursInLonger(b: Bytes, more: Bytes, marker: Bytes, p: nat)
    ensures Occurs(b, marker, p) ==> Occurs(b + more, marker, p)
    ensures Occurs(b + more, marker, p) && p + |marker| <= |b| ==> Occurs(b, marker, p)
  {
    if p + |marker| <= |b| {
      assert (b + more)[p..p + |marker|] == b[p..p + |marker|];
    }
  }

  lemma FirstEndInLonger(b: Bytes, more: Bytes, marker: Bytes)
    ensures FirstEnd(b, marker).Some? ==> FirstEnd(b + more, marker) == FirstEnd(b, marker)
    ensures FirstEnd(b, marker) == None && FirstEnd(b + more, marker).Some? ==> FirstEnd(b + more, marker).value > |b|
  {
    forall p: nat
      ensures Occurs(b, marker, p) ==> Occurs(b + more, marker, p)
      ensures Occurs(b + more, marker, p) && p + |marker| <= |b| ==> Occurs(b, marker, p)
    {
      OccursInLonger(b, more, marker, p);
    }
  }

  lemma {:induction false} FindSkips(b: Bytes, marker: Bytes, from: nat, until: nat)
    requires from <= until && forall q: nat :: from <= q < until ==> !Occurs(b, marker, q)
    ensures Find(b, marker, from) == Find(b, marker, until)
    decreases until - from
  {
    if from < until {
      assert !Occurs(b, marker, from);
      FindSkips(b, marker, from + 1, until);
    }
  }

  lemma NothingEndsBefore(b: Bytes, marker: Bytes, searched: nat, q: nat)
    requires searched <= |b| && FirstEnd(b[..searched], marker) == None && q + |marker| <= searched
    ensures !Occurs(b, marker, q)
  {
    var head := b[..searched];
    assert !Occurs(head, marker, q);
    assert head + b[searched..] == b;
    OccursInLonger(head, b[searched..], marker, q);
  }

  /** Nothing ends inside what has been searched, so resuming one marker width back misses nothing. */
  lemma ResumedSearchFindsTheFirst(b: Bytes, marker: Bytes, searched: nat, from: nat)
    requires searched <= |b| && FirstEnd(b[..searched], marker) == None
    requires from == if searched > |marker| then searched - |marker| else 0
    ensures Find(b, marker, from) == Find(b, marker, 0)
  {
    forall q: nat | q < from ensures !Occurs(b, marker, q) {
      NothingEndsBefore(b, marker, searched, q);
    }
    FindSkips(b, marker, 0, from);
  }

  // ----- The specification -----

  function Concat(chunks: seq<Bytes>): Bytes {
    if chunks == [] then [] else chunks[0] + Concat(chunks[1..])
  }

  /** Whether the reader stops once it holds `buf`, and with what. */
  function Stop(l: Limits, buf: Bytes): Option<Result<Bytes, Error>> {
    if l.stopAfter.Some? && FirstEnd(buf, l.stopAfter.value).Some?
    then Some(Ok(buf[..FirstEnd(buf, l.stopAfter.value).value]))
    else if |buf| > l.maxBytes then Some(if l.truncate then Ok(buf[..l.maxBytes]) else Err(OverCap))
    else None
  }

  function Read(l: Limits, buf: Bytes, chunks: seq<Bytes>): Result<Bytes, Error>
    decreases |chunks|
  {
    if chunks == [] then Ok(buf)
    else
      var next := buf + chunks[0];
      var stop := Stop(l, next);
      if stop.Some? then stop.value else Read(l, next, chunks[1..])
  }

  // ----- What is returned -----

  ghost predicate MarkerEnds(l: Limits, body: Bytes, end: nat) {
    l.stopAfter.Some? && FirstEnd(body, l.stopAfter.value) == Some(end)
  }

  ghost predicate NoMarkerWithin(l: Limits, body: Bytes, n: nat) {
    forall end: nat :: MarkerEnds(l, body, end) ==> end > n
  }

  /** The outcomes the documentation allows: up to the first marker, all of it, or the cap. */
  ghost predicate Allowed(l: Limits, body: Bytes, r: Result<Bytes, Error>) {
    || (exists end: nat :: MarkerEnds(l, body, end) && end <= |body| && r == Ok(body[..end]))
    || (|body| <= l.maxBytes && NoMarkerWithin(l, body, |body|) && r == Ok(body))
    || (|body| > l.maxBytes && NoMarkerWithin(l, body, l.maxBytes + 1)
        && r == if l.truncate then Ok(body[..l.maxBytes]) else Err(OverCap))
  }

  /** Stopping at the marker always returns the shortest prefix of the whole body that ends in it. */
  lemma {:induction false} ReadIsAllowed(l: Limits, buf: Bytes, chunks: seq<Bytes>)
    requires buf == [] || Stop(l, buf) == None
    ensures Allowed(l, buf + Concat(chunks), Read(l, buf, chunks))
    decreases |chunks|
  {
    var body := buf + Concat(chunks);
    if chunks == [] {
      assert body == buf;
    } else {
      var next, rest := buf + chunks[0], Concat(chunks[1..]);
      assert body == next + rest;
      if l.stopAfter.Some? {
        FirstEndInLonger(next, rest, l.stopAfter.value);
      }
      if Stop(l, next) == None {
        ReadIsAllowed(l, next, chunks[1..]);
      } else if l.stopAfter.Some? && FirstEnd(next, l.stopAfter.value).Some? {
        var end := FirstEnd(next, l.stopAfter.value).value;
        assert MarkerEnds(l, body, end) && body[..end] == next[..end];
      } else {
        assert body[..l.maxBytes] == next[..l.maxBytes];
      }
    }
  }

  // ----- Chunking -----

  /** The chunking cannot matter: there is no marker, it never occurs, or it ends by one byte past the cap. */
  ghost predicate ChunkingIrrelevant(l: Limits, body: Bytes) {
    forall end: nat :: MarkerEnds(l, body, end) ==> end <= l.maxBytes + 1
  }

  ghost predicate SameForAllChunkings(l: Limits, body: Bytes) {
    forall one, other :: Concat(one) == body && Concat(other) == body ==> Read(l, [], one) == Read(l, [], other)
  }

  /** What every chunking returns when the chunking cannot matter. */
  function Canonical(l: Limits, body: Bytes): Result<Bytes, Error> {
    if l.stopAfter.Some? && FirstEnd(body, l.stopAfter.value).Some? then Ok(body[..FirstEnd(body, l.stopAfter.value).value])
    else if |body| <= l.maxBytes then Ok(body)
    else if l.truncate then Ok(body[..l.maxBytes])
    else Err(OverCap)
  }

  lemma ReadIsCanonical(l: Limits, body: Bytes, chunks: seq<Bytes>)
    requires ChunkingIrrelevant(l, body) && Concat(chunks) == body
    ensures Read(l, [], chunks) == Canonical(l, body)
  {
    ReadIsAllowed(l, [], chunks);
    assert [] + Concat(chunks) == body;
    if l.stopAfter.Some? && FirstEnd(body, l.stopAfter.value).Some? {
      assert MarkerEnds(l, body, FirstEnd(body, l.stopAfter.value).value);
    }
  }

  lemma ReadWhole(l: Limits, body: Bytes, end: nat)
    requires MarkerEnds(l, body, end)
    ensures Concat([body]) == body && Read(l, [], [body]) == Ok(body[..end])
  {
    assert [body][1..] == [] && [] + body == body;
  }

  lemma ReadHeadOnly(l: Limits, head: Bytes, tail: Bytes)
    requires |head| > l.maxBytes && l.stopAfter.Some? && FirstEnd(head, l.stopAfter.value) == None
    ensures Concat([head, tail]) == head + tail
    ensures Read(l, [], [head, tail]) == if l.truncate then Ok(head[..l.maxBytes]) else Err(OverCap)
  {
    assert [head, tail][1..] == [tail] && [tail][1..] == [] && [] + head == head;
    assert Concat([tail]) == tail;
  }

  /** A marker that ends later can be missed: a chunk boundary one byte past the cap stops the read. */
  lemma LateMarkerDependsOnChunks(l: Limits, body: Bytes, end: nat) returns (one: seq<Bytes>, other: seq<Bytes>)
    requires MarkerEnds(l, body, end) && end > l.maxBytes + 1
    ensures Concat(one) == body && Concat(other) == body && Read(l, [], one) != Read(l, [], other)
  {
    var head, tail := body[..l.maxBytes + 1], body[l.maxBytes + 1..];
    assert body == head + tail;
    FirstEndInLonger(head, tail, l.stopAfter.value);
    ReadWhole(l, body, end);
    ReadHeadOnly(l, head, tail);
    one, other := [body], [head, tail];
    assert |body[..end]| > |head[..l.maxBytes]|;
  }

  /** The outcome is the same for every chunking of the body iff no marker is given, it never occurs,
      or its first occurrence ends at most one byte past the cap. */
  lemma ChunkingIsIrrelevantIff(l: Limits, body: Bytes)
    ensures SameForAllChunkings(l, body) <==> ChunkingIrrelevant(l, body)
  {
    if ChunkingIrrelevant(l, body) {
      forall one, other | Concat(one) == body && Concat(other) == body
        ensures Read(l, [], one) == Read(l, [], other)
      {
        ReadIsCanonical(l, body, one);
        ReadIsCanonical(l, body, other);
      }
    } else {
      var end: nat :| MarkerEnds(l, body, end) && end > l.maxBytes + 1;
      var one, other := LateMarkerDependsOnChunks(l, body, end);
    }
  }

  // ----- The reader -----

  /** Search the grown buffer, of which `searched` bytes are known not to hold the marker. */
  method SearchNew(buf: Bytes, marker: Bytes, searched: nat) returns (end: Option<nat>)
    requires searched <= |buf| && (searched > 0 ==> FirstEnd(buf[..searched], marker) == None)
    ensures end == FirstEnd(buf, marker)
    ensures end.Some? ==> end.value <= |buf|
  {
    var from := if searched > |marker| then searched - |marker| else 0;
    var found := Find(buf, marker, from);
    if searched > 0 {
      ResumedSearchFindsTheFirst(buf, marker, searched, from);
    }
    end := if found.Some? then Some(found.value + |marker|) else None;
  }

  lemma ReadOne(l: Limits, buf: Bytes, chunks: seq<Bytes>, i: nat)
    requires i < |chunks|
    ensures
      var stop := Stop(l, buf + chunks[i]);
      Read(l, buf, chunks[i..]) == if stop.Some? then stop.value else Read(l, buf + chunks[i], chunks[i + 1..])
  {
    assert chunks[i..][0] == chunks[i] && chunks[i..][1..] == chunks[i + 1..];
  }

  /** Grow the buffer, search only from one marker width back, stop at the marker or over the cap. */
  method ReadBody(chunks: seq<Bytes>, l: Limits) returns (r: Result<Bytes, Error>)
    ensures r == Read(l, [], chunks)
    ensures Allowed(l, Concat(chunks), r)
  {
    ReadIsAllowed(l, [], chunks);
    assert [] + Concat(chunks) == Concat(chunks);
    var buf: Bytes, searched := [], 0;
    assert chunks[0..] == chunks;
    for i := 0 to |chunks|
      invariant Read(l, [], chunks) == Read(l, buf, chunks[i..])
      invariant searched == if l.stopAfter.Some? then |buf| else 0
      invariant searched > 0 ==> FirstEnd(buf, l.stopAfter.value) == None
    {
      ReadOne(l, buf, chunks, i);
      ghost var was := buf;
      buf := buf + chunks[i];
      assert buf[..|was|] == was;
      if l.stopAfter.Some? {
        var end := SearchNew(buf, l.stopAfter.value, searched);
        if end.Some? {
          return Ok(buf[..end.value]);
        }
        searched := |buf|;
      }
      if |buf| > l.maxBytes {
        return if l.truncate then Ok(buf[..l.maxBytes]) else Err(OverCap);
      }
    }
    assert chunks[|chunks|..] == [];
    return Ok(buf);
  }
}
