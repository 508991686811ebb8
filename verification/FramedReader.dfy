/** The request reader of the FD server: chunks are collected until a NUL byte or the size cap. */
module FramedReader {

  type Byte = bv8

  const CHUNK_LIMIT: nat := 4096
  const FRAME_LIMIT: nat := 65536

  datatype Reading =
    | Payload(bytes: seq<Byte>)  // everything before the first NUL
    | TooLong                    // more than the cap without a NUL
    | Closed                     // end of stream first

  /** The offset of the first NUL byte, `|data|` when there is none. */
  function FirstNul(data: seq<Byte>): (k: nat)
    ensures k <= |data|
    ensures k < |data| ==> data[k] == 0
    ensures forall i :: 0 <= i < k ==> data[i] != 0
  {
    if data == [] || data[0] == 0 then 0 else 1 + FirstNul(data[1..])
  }

  function Concat(chunks: seq<seq<Byte>>): seq<Byte> {
    if chunks == [] then [] else chunks[0] + Concat(chunks[1..])
  }

  /** What successive reads of a stream can return before end of file. */
  ghost predicate IsSplit(chunks: seq<seq<Byte>>) {
    forall i :: 0 <= i < |chunks| ==> 0 < |chunks[i]| <= CHUNK_LIMIT
  }

  /** What the reader makes of the remaining chunks, `scratch` being what it has collected so far. */
  function Read(scratch: seq<Byte>, chunks: seq<seq<Byte>>): Reading
    decreases |chunks|
  {
    if chunks == [] then Closed
    else
      var s := scratch + chunks[0];
      if FirstNul(s) < |s| then Payload(s[..FirstNul(s)])
      else if |s| > FRAME_LIMIT then TooLong
      else Read(s, chunks[1..])
  }

  /** Reads one request; `chunks` is what the stream delivers, an empty read standing for its end. Tells also how large
      the scratch buffer grew. */
  method ReadFramedRequest(chunks: seq<seq<Byte>>) returns (r: Reading, ghost peak: nat)
    requires IsSplit(chunks)
    ensures r == Read([], chunks)
    ensures peak <= 69632
  {
    var scratch: seq<Byte> := [];
    peak := 0;
    var next := 0;
    while true
      invariant next <= |chunks|
      invariant Read([], chunks) == Read(scratch, chunks[next..])
      invariant |scratch| <= FRAME_LIMIT && peak <= FRAME_LIMIT + CHUNK_LIMIT
      decreases |chunks| - next
    {
      if next == |chunks| {
        return Closed, peak;
      }
      scratch := scratch + chunks[next];
      peak := if |scratch| > peak then |scratch| else peak;
      next := next + 1;
      var nul := FirstNul(scratch);
      if nul < |scratch| {
        return Payload(scratch[..nul]), peak;
      }
      if |scratch| > FRAME_LIMIT {
        return TooLong, peak;
      }
    }
  }

  /** How many bytes were collected before the chunk in which `data[k]` arrives. */
  function Before(chunks: seq<seq<Byte>>, k: nat): nat
    requires k < |Concat(chunks)|
  {
    if k < |chunks[0]| then 0 else |chunks[0]| + Before(chunks[1..], k - |chunks[0]|)
  }

  lemma {:induction false} BeforeBounds(chunks: seq<seq<Byte>>, k: nat)
    requires IsSplit(chunks) && k < |Concat(chunks)|
    ensures Before(chunks, k) <= k < Before(chunks, k) + CHUNK_LIMIT
    decreases |chunks|
  {
    if |chunks[0]| <= k {
      BeforeBounds(chunks[1..], k - |chunks[0]|);
    }
  }

  lemma FirstNulOf(scratch: seq<Byte>, more: seq<Byte>)
    requires FirstNul(scratch) == |scratch|
    ensures FirstNul(scratch + more) == |scratch| + FirstNul(more)
  {
    var s := scratch + more;
    var k := FirstNul(s);
    assert forall i :: 0 <= i < |more| ==> s[|scratch| + i] == more[i];
    assert forall i :: 0 <= i < |scratch| ==> s[i] == scratch[i];
    assert k < |s| ==> k >= |scratch|;
  }

  /** The exact verdict for every split: with the first NUL at offset `k`, the request is accepted precisely when no more
      than the cap had arrived before the chunk that brings it, and then its payload is everything before the NUL. */
  lemma {:induction false} ReadExactly(scratch: seq<Byte>, chunks: seq<seq<Byte>>)
    requires IsSplit(chunks) && FirstNul(scratch) == |scratch| <= FRAME_LIMIT
    ensures var data := Concat(chunks); var k := FirstNul(data);
      Read(scratch, chunks) ==
        if k < |data| then
          if |scratch| + Before(chunks, k) <= 65536 then Payload(scratch + data[..k]) else TooLong
        else if |scratch| + |data| <= 65536 then Closed else TooLong
    decreases |chunks|
  {
    if chunks != [] {
      var head, rest := chunks[0], Concat(chunks[1..]);
      var s := scratch + head;
      var data := Concat(chunks);
      FirstNulOf(scratch, head);
      if FirstNul(head) < |head| {
        FirstNulPrefix(head, rest);
        assert s[..FirstNul(s)] == scratch + data[..FirstNul(data)];
      } else {
        FirstNulOf(head, rest);
        if |s| <= FRAME_LIMIT {
          ReadExactly(s, chunks[1..]);
          var k := FirstNul(rest);
          if k < |rest| {
            assert s + rest[..k] == scratch + data[..|head| + k];
          }
        }
      }
    }
  }

  lemma FirstNulPrefix(head: seq<Byte>, rest: seq<Byte>)
    requires FirstNul(head) < |head|
    ensures FirstNul(head + rest) == FirstNul(head)
  {
    var s := head + rest;
    assert forall i :: 0 <= i < |head| ==> s[i] == head[i];
  }

  /** Two splits of the same stream give the same request as soon as its NUL lies within the cap; a NUL a whole chunk
      beyond the cap is refused for every split; without a NUL only the length counts. */
  lemma ChunkingIrrelevant(chunks: seq<seq<Byte>>)
    requires IsSplit(chunks)
    ensures var data := Concat(chunks); var k := FirstNul(data);
      && (k < |data| && k <= 65536 ==> Read([], chunks) == Payload(data[..k]))
      && (k < |data| && k >= 69632 ==> Read([], chunks) == TooLong)
      && (k == |data| ==> Read([], chunks) == if |data| <= 65536 then Closed else TooLong)
  {
    var data := Concat(chunks);
    var k := FirstNul(data);
    ReadExactly([], chunks);
    if k < |data| {
      BeforeBounds(chunks, k);
      assert [] + data[..k] == data[..k];
    }
  }

  // ----- the bounds are tight -----

  /** Cuts `data` into chunks of the largest size. */
  function Cut(data: seq<Byte>): (chunks: seq<seq<Byte>>)
    ensures IsSplit(chunks) && Concat(chunks) == data
  {
    if data == [] then []
    else if |data| <= CHUNK_LIMIT then [data]
    else
      var rest := Cut(data[CHUNK_LIMIT..]);
      assert ([data[..CHUNK_LIMIT]] + rest)[1..] == rest;
      [data[..CHUNK_LIMIT]] + rest
  }

  lemma {:induction false} BeforeCut(data: seq<Byte>, k: nat)
    requires k < |data|
    ensures Before(Cut(data), k) == k / CHUNK_LIMIT * CHUNK_LIMIT
    decreases |data|
  {
    if |data| > CHUNK_LIMIT {
      var rest := Cut(data[CHUNK_LIMIT..]);
      assert Cut(data)[1..] == rest;
      if k >= CHUNK_LIMIT {
        BeforeCut(data[CHUNK_LIMIT..], k - CHUNK_LIMIT);
      }
    }
  }

  lemma {:induction false} ConcatSplit(a: seq<seq<Byte>>, b: seq<seq<Byte>>)
    ensures Concat(a + b) == Concat(a) + Concat(b)
  {
    if a == [] {
      assert a + b == b;
    } else {
      assert (a + b)[1..] == a[1..] + b;
      ConcatSplit(a[1..], b);
    }
  }

  lemma {:induction false} BeforeSplit(a: seq<seq<Byte>>, b: seq<seq<Byte>>, k: nat)
    requires |Concat(a)| <= k < |Concat(a)| + |Concat(b)|
    ensures Concat(a + b) == Concat(a) + Concat(b)
    ensures Before(a + b, k) == |Concat(a)| + Before(b, k - |Concat(a)|)
  {
    ConcatSplit(a, b);
    if a == [] {
      assert a + b == b;
    } else {
      assert (a + b)[1..] == a[1..] + b;
      BeforeSplit(a[1..], b, k - |a[0]|);
    }
  }

  lemma AcceptedSplit(data: seq<Byte>, chunks: seq<seq<Byte>>)
    requires FirstNul(data) < |data| && IsSplit(chunks) && Concat(chunks) == data
    requires Before(chunks, FirstNul(data)) <= FRAME_LIMIT
    ensures Read([], chunks) == Payload(data[..FirstNul(data)])
  {
    ReadExactly([], chunks);
    assert [] + data[..FirstNul(data)] == data[..FirstNul(data)];
  }

  lemma RefusedSplit(data: seq<Byte>, chunks: seq<seq<Byte>>)
    requires FirstNul(data) < |data| && IsSplit(chunks) && Concat(chunks) == data
    requires FRAME_LIMIT < Before(chunks, FirstNul(data))
    ensures Read([], chunks) == TooLong
  {
    ReadExactly([], chunks);
  }

  /** Two splits in a row; everything of the first precedes the second. */
  lemma JoinedSplits(a: seq<seq<Byte>>, b: seq<seq<Byte>>)
    requires IsSplit(a) && IsSplit(b) && Concat(b) != []
    ensures IsSplit(a + b) && Concat(a + b) == Concat(a) + Concat(b)
    ensures |Concat(a)| <= Before(a + b, |Concat(a)|)
  {
    BeforeSplit(a, b, |Concat(a)|);
  }

  /** A split into chunks of the largest size. */
  lemma LargestChunks(data: seq<Byte>, k: nat) returns (chunks: seq<seq<Byte>>)
    requires k < |data|
    ensures IsSplit(chunks) && Concat(chunks) == data && Before(chunks, k) == k / CHUNK_LIMIT * CHUNK_LIMIT
  {
    chunks := Cut(data);
    BeforeCut(data, k);
  }

  /** Between the two bounds the verdict does depend on the split: every stream whose first NUL lies there has a split
      that is accepted and one that is refused. */
  lemma BoundsAreTight(data: seq<Byte>) returns (accepted: seq<seq<Byte>>, refused: seq<seq<Byte>>)
    requires FirstNul(data) < |data| && 65536 < FirstNul(data) < 69632
    ensures IsSplit(accepted) && Concat(accepted) == data && Read([], accepted) == Payload(data[..FirstNul(data)])
    ensures IsSplit(refused) && Concat(refused) == data && Read([], refused) == TooLong
  {
    var k := FirstNul(data);
    accepted := LargestChunks(data, k);
    AcceptedSplit(data, accepted);
    var a := LargestChunks(data[..k], 0);
    var b := LargestChunks(data[k..], 0);
    JoinedSplits(a, b);
    assert data[..k] + data[k..] == data;
    refused := a + b;
    RefusedSplit(data, refused);
  }
}
