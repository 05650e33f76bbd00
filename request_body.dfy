/** The PUT body: the chunks collected from the request's `data` events and
    joined with `Buffer.concat` once the `end` event arrives. */
module RequestBody {
  import opened Http

  /** `Buffer.concat`: the chunks joined in the order given. */
  function Concat(chunks: seq<Bytes>): Bytes
  {
    if chunks == [] then [] else chunks[0] + Concat(chunks[1..])
  }

  /** The number of body bytes the chunks carry together. */
  function TotalLength(chunks: seq<Bytes>): nat
  {
    if chunks == [] then 0 else |chunks[0]| + TotalLength(chunks[1..])
  }

  /** Joining loses and invents no byte. */
  lemma {:induction false} ConcatLength(chunks: seq<Bytes>)
    ensures |Concat(chunks)| == TotalLength(chunks)
  {
    if chunks != [] {
      ConcatLength(chunks[1..]);
    }
  }

  /** Joining two runs of chunks is joining each run and appending the results. */
  lemma {:induction false} ConcatAppend(a: seq<Bytes>, b: seq<Bytes>)
    ensures Concat(a + b) == Concat(a) + Concat(b)
  {
    if a == [] {
      assert a + b == b;
    } else {
      assert (a + b)[1..] == a[1..] + b;
      ConcatAppend(a[1..], b);
    }
  }

  /** Arrival order is kept: chunk i lies, unchanged, right after the bytes of
      the chunks that came before it. */
  lemma ChunkInPlace(chunks: seq<Bytes>, i: nat)
    requires i < |chunks|
    ensures TotalLength(chunks[..i]) + |chunks[i]| <= |Concat(chunks)|
    ensures Concat(chunks)[TotalLength(chunks[..i])..TotalLength(chunks[..i]) + |chunks[i]|] == chunks[i]
  {
    var before, rest := chunks[..i], chunks[i + 1..];
    assert chunks == before + ([chunks[i]] + rest);
    ConcatAppend(before, [chunks[i]] + rest);
    ConcatAppend([chunks[i]], rest);
    assert Concat([chunks[i]]) == chunks[i] by {
      assert [chunks[i]][1..] == [];
    }
    ConcatLength(before);
  }

  /** The `data` handler pushes each chunk as it arrives; the `end` handler
      joins them into the image to store. */
  method ReceiveBody(arriving: seq<Bytes>) returns (imageData: Bytes)
    ensures imageData == Concat(arriving)
    ensures |imageData| == TotalLength(arriving)
  {
    var chunks: seq<Bytes> := [];
    var i := 0;
    while i < |arriving|
      invariant 0 <= i <= |arriving|
      invariant chunks == arriving[..i]
    {
      chunks := chunks + [arriving[i]];
      i := i + 1;
    }
    assert chunks == arriving;
    imageData := Concat(chunks);
    ConcatLength(chunks);
  }
}
