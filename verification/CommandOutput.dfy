/** Collecting the output of a command: coalescing chunks, capping them, streaming or buffering them. */
module CommandOutput {
  import opened Wrappers

  type Bytes = seq<bv8>

  const OUTPUT_CHUNK_SIZE_HINT: nat := 64 * 1024

  /** One output notification to the client. */
  datatype Delta = Delta(processId: string, bytes: Bytes, capReached: bool)

  function Concat(chunks: seq<Bytes>): Bytes {
    if chunks == [] then [] else Concat(chunks[..|chunks| - 1]) + chunks[|chunks| - 1]
  }

  /** What the deltas carry, put together. */
  function Streamed(deltas: seq<Delta>): Bytes {
    if deltas == [] then [] else Streamed(deltas[..|deltas| - 1]) + deltas[|deltas| - 1].bytes
  }

  /** The first bytes of the output, as many as the cap allows. */
  function Capped(all: Bytes, cap: Option<nat>): Bytes {
    match cap
    case None => all
    case Some(c) => if |all| <= c then all else all[..c]
  }

  predicate CapReached(all: Bytes, cap: Option<nat>) {
    cap.Some? && |all| >= cap.value
  }

  lemma ConcatNext(chunks: seq<Bytes>, k: nat)
    requires k < |chunks|
    ensures Concat(chunks[..k + 1]) == Concat(chunks[..k]) + chunks[k]
  {
    assert chunks[..k + 1][..k] == chunks[..k];
  }

  lemma {:induction false} ConcatGrows(chunks: seq<Bytes>, k: nat)
    requires k <= |chunks|
    ensures Concat(chunks[..k]) <= Concat(chunks)
    decreases |chunks| - k
  {
    if k == |chunks| {
      assert chunks[..k] == chunks;
    } else {
      ConcatNext(chunks, k);
      ConcatGrows(chunks, k + 1);
    }
  }

  /** Once the cap is reached, no later chunk changes what is collected. */
  lemma CappedStops(chunks: seq<Bytes>, k: nat, cap: Option<nat>)
    requires k <= |chunks| && (k == |chunks| || CapReached(Concat(chunks[..k]), cap))
    ensures Capped(Concat(chunks[..k]), cap) == Capped(Concat(chunks), cap)
    ensures CapReached(Concat(chunks[..k]), cap) == CapReached(Concat(chunks), cap)
  {
    assert chunks[..|chunks|] == chunks;
    ConcatGrows(chunks, k);
  }

  /** Where the output of `chunks` has gone so far: to the client as deltas, or into the buffer. */
  ghost predicate Collected(all: Bytes, any: bool, stream: bool, processId: Option<string>, cap: Option<nat>,
                            buffer: Bytes, deltas: seq<Delta>) {
    && (if stream then buffer == [] else buffer == Capped(all, cap) && deltas == [])
    && (stream && processId.None? ==> deltas == [])
    && (stream && processId.Some? ==>
          && Streamed(deltas) == Capped(all, cap)
          && (deltas == [] <==> !any)
          && forall i | 0 <= i < |deltas| ::
               && deltas[i].processId == processId.value
               && (deltas[i].capReached <==> i == |deltas| - 1 && CapReached(all, cap)))
  }

  /** Receive one chunk and whatever further chunks are already there, up to the size hint. */
  method ReceiveChunk(chunks: seq<Bytes>, start: nat) returns (chunk: Bytes, consumed: nat)
    requires start < |chunks|
    ensures start < consumed <= |chunks| && Concat(chunks[..consumed]) == Concat(chunks[..start]) + chunk
  {
    ConcatNext(chunks, start);
    chunk, consumed := chunks[start], start + 1;
    while |chunk| < OUTPUT_CHUNK_SIZE_HINT && consumed < |chunks|
      invariant start < consumed <= |chunks| && Concat(chunks[..consumed]) == Concat(chunks[..start]) + chunk
    {
      if * { break; }
      ConcatNext(chunks, consumed);
      chunk, consumed := chunk + chunks[consumed], consumed + 1;
    }
  }

  /** The part of a chunk that the cap lets through. */
  function CapChunk(chunk: Bytes, observed: nat, cap: Option<nat>): (r: Bytes)
    ensures forall before: Bytes | cap.None? || observed == |Capped(before, cap)| ::
              Capped(before + chunk, cap) == Capped(before, cap) + r
  {
    match cap
    case None => chunk
    case Some(c) =>
      var room := if c > observed then c - observed else 0;
      chunk[..if room < |chunk| then room else |chunk|]
  }

  lemma CollectedNext(before: Bytes, after: Bytes, any: bool, stream: bool, processId: Option<string>,
                      cap: Option<nat>, buffer: Bytes, deltas: seq<Delta>, capped: Bytes)
    requires Collected(before, any, stream, processId, cap, buffer, deltas)
    requires !any || !CapReached(before, cap)
    requires Capped(after, cap) == Capped(before, cap) + capped
    ensures var reached := CapReached(after, cap);
            if stream && processId.Some?
            then Collected(after, true, stream, processId, cap, buffer,
                           deltas + [Delta(processId.value, capped, reached)])
            else Collected(after, true, stream, processId, cap, if stream then buffer else buffer + capped, deltas)
  {
  }

  /**
   The collector of one output stream. The chunks arrive one by one and the channel then closes;
   how many are there when the collector looks, and whether the drain timeout fires, is left open.
   */
  method CollectOutput(chunks: seq<Bytes>, stream: bool, processId: Option<string>, cap: Option<nat>)
    returns (buffer: Bytes, deltas: seq<Delta>, consumed: nat, timedOut: bool)
    ensures consumed <= |chunks|
    ensures Collected(Concat(chunks[..consumed]), consumed > 0, stream, processId, cap, buffer, deltas)
    ensures !timedOut ==> Collected(Concat(chunks), chunks != [], stream, processId, cap, buffer, deltas)
  {
    buffer, deltas, consumed, timedOut := [], [], 0, false;
    var observed: nat, capReached := 0, false;
    while !capReached
      invariant consumed <= |chunks|
      invariant Collected(Concat(chunks[..consumed]), consumed > 0, stream, processId, cap, buffer, deltas)
      invariant cap.Some? ==> observed == |Capped(Concat(chunks[..consumed]), cap)|
      invariant capReached <==> consumed > 0 && CapReached(Concat(chunks[..consumed]), cap)
      decreases |chunks| - consumed
    {
      if * {
        timedOut := true;
        break;
      }
      if consumed == |chunks| { break; }
      var chunk, next := ReceiveChunk(chunks, consumed);
      var capped := CapChunk(chunk, observed, cap);
      CollectedNext(Concat(chunks[..consumed]), Concat(chunks[..next]), consumed > 0, stream, processId, cap,
                    buffer, deltas, capped);
      consumed := next;
      if cap.Some? { observed := observed + |capped|; }
      capReached := Some(observed) == cap;
      if stream && processId.Some? {
        deltas := deltas + [Delta(processId.value, capped, capReached)];
      } else if !stream {
        buffer := buffer + capped;
      }
    }
    if !timedOut { CappedStops(chunks, consumed, cap); }
  }
}
