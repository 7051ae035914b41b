/** Reading a response body of bounded size from a stream of chunks. */
module BoundedBody {
  import opened Options

  type Bytes = seq<bv8>

  /** What one read yields: a chunk, the end of the stream, or a failure or abort. */
  datatype Reply = Chunk(bytes: Bytes) | End | Failure

  predicate AllChunks(replies: seq<Reply>, n: nat)
    requires n <= |replies|
  {
    forall k :: 0 <= k < n ==> replies[k].Chunk?
  }

  /** The stream ends after its first `n` replies, which are all chunks. */
  predicate EndsAfter(replies: seq<Reply>, n: nat) {
    n < |replies| && replies[n].End? && AllChunks(replies, n)
  }

  /** The bytes of the first `n` replies. */
  function Payload(replies: seq<Reply>, n: nat): Bytes
    requires n <= |replies| && AllChunks(replies, n)
  {
    if n == 0 then [] else Payload(replies, n - 1) + replies[n - 1].bytes
  }

  lemma {:induction false} PayloadGrows(replies: seq<Reply>, m: nat, n: nat)
    requires m <= n <= |replies| && AllChunks(replies, n)
    ensures Payload(replies, m) <= Payload(replies, n)
  {
    if m < n {
      PayloadGrows(replies, m, n - 1);
    }
  }

  /** The stream delivers a whole body of at most `maximum` bytes. */
  ghost predicate Fits(replies: seq<Reply>, n: nat, maximum: nat) {
    EndsAfter(replies, n) && |Payload(replies, n)| <= maximum
  }

  /** Once the maximum is exceeded, a later end comes too late. */
  lemma TooLong(replies: seq<Reply>, i: nat, maximum: nat)
    requires i <= |replies| && AllChunks(replies, i) && |Payload(replies, i)| > maximum
    ensures forall n: nat :: !Fits(replies, n, maximum)
  {
    forall n: nat | EndsAfter(replies, n) ensures |Payload(replies, n)| > maximum {
      assert n >= i;
      PayloadGrows(replies, i, n);
    }
  }

  function Concat(chunks: seq<Bytes>, n: nat): Bytes
    requires n <= |chunks|
  {
    if n == 0 then [] else Concat(chunks, n - 1) + chunks[n - 1]
  }

  lemma {:induction false} ConcatGrows(chunks: seq<Bytes>, m: nat, n: nat)
    requires m <= n <= |chunks|
    ensures Concat(chunks, m) <= Concat(chunks, n)
  {
    if m < n {
      ConcatGrows(chunks, m, n - 1);
    }
  }

  lemma {:induction false} ConcatSnoc(chunks: seq<Bytes>, last: Bytes, n: nat)
    requires n <= |chunks|
    ensures Concat(chunks + [last], n) == Concat(chunks, n)
  {
    if n > 0 {
      ConcatSnoc(chunks, last, n - 1);
    }
  }

  /** Copies a chunk into the buffer. */
  method Put(output: array<bv8>, chunk: Bytes, offset: nat)
    requires offset + |chunk| <= output.Length
    modifies output
    ensures output[..offset + |chunk|] == old(output[..offset]) + chunk
  {
    for k := 0 to |chunk|
      invariant output[..offset] == old(output[..offset])
      invariant output[offset..offset + k] == chunk[..k]
    {
      output[offset + k] := chunk[k];
    }
    assert output[..offset + |chunk|] == output[..offset] + output[offset..offset + |chunk|];
    assert chunk[..|chunk|] == chunk;
  }

  /** One buffer with all the chunks one after the other. */
  method Assemble(chunks: seq<Bytes>, total: nat) returns (output: array<bv8>)
    requires |Concat(chunks, |chunks|)| == total
    ensures fresh(output) && output[..] == Concat(chunks, |chunks|)
  {
    output := new bv8[total];
    var offset := 0;
    for i := 0 to |chunks|
      invariant offset == |Concat(chunks, i)| <= total
      invariant output[..offset] == Concat(chunks, i)
    {
      ConcatGrows(chunks, i + 1, |chunks|);
      Put(output, chunks[i], offset);
      offset := offset + |chunks[i]|;
    }
    assert output[..offset] == output[..];
  }

  /**
   The bytes of a response: exactly the concatenation of the chunks, and only when the stream ends and their length is
   between 1 and the maximum. The stream is cancelled exactly when no body that fits was read to its end. A reader that
   gives no further reply is cut off by the timeout, a failure like any other.
   */
  method ReadBoundedBody(replies: seq<Reply>, maximum: nat) returns (body: Option<array<bv8>>, cancelled: bool)
    ensures body.Some? <==> exists n: nat :: Fits(replies, n, maximum) && |Payload(replies, n)| >= 1
    ensures forall n: nat :: body.Some? && EndsAfter(replies, n) ==> body.value[..] == Payload(replies, n)
    ensures body.Some? ==> fresh(body.value)
    ensures cancelled <==> !exists n: nat :: Fits(replies, n, maximum)
  {
    var chunks: seq<Bytes> := [];
    var total, i := 0, 0;
    while true
      invariant 0 <= i <= |replies| && AllChunks(replies, i)
      invariant Concat(chunks, |chunks|) == Payload(replies, i) && total == |Payload(replies, i)| <= maximum
      decreases |replies| - i
    {
      if i == |replies| || replies[i].Failure? {
        return None, true;
      }
      if replies[i].End? {
        break;
      }
      var value := replies[i].bytes;
      total := total + |value|;
      if total > maximum {
        TooLong(replies, i + 1, maximum);
        return None, true;
      }
      ConcatSnoc(chunks, value, |chunks|);
      chunks := chunks + [value];
      i := i + 1;
    }
    assert Fits(replies, i, maximum) && forall n: nat :: EndsAfter(replies, n) ==> n == i;
    if total == 0 {
      return None, false;
    }
    var output := Assemble(chunks, total);
    return Some(output), false;
  }
}
