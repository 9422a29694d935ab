/** Byte buffers of a fixed length, filled in place. */
module Buffers {
  import opened Bytes

  /** Copies `chunk` into the buffer at `offset`, leaving the rest alone. */
  method SetAt(out: array<Byte>, chunk: ByteString, offset: nat)
    requires offset + |chunk| <= out.Length
    modifies out
    ensures out[..] == old(out[..offset]) + chunk + old(out[offset + |chunk|..])
  {
    ghost var before := out[..];
    for i := 0 to |chunk|
      invariant out[..offset] == before[..offset]
      invariant out[offset..offset + i] == chunk[..i]
      invariant out[offset + i..] == before[offset + i..]
    {
      out[offset + i] := chunk[i];
      assert out[offset..offset + i + 1] == out[offset..offset + i] + [chunk[i]];
      assert out[offset + i + 1..] == before[offset + i..][1..];
    }
    assert out[..] == out[..offset] + out[offset..offset + |chunk|] + out[offset + |chunk|..];
  }

  function TotalLength(chunks: seq<ByteString>): (n: nat)
    ensures n == |Concat(chunks)|
  {
    if |chunks| == 0 then 0 else |chunks[0]| + TotalLength(chunks[1..])
  }

  /** Lays the chunks one after another in a fresh buffer of their total length. */
  method ConcatChunks(chunks: seq<ByteString>) returns (out: array<Byte>)
    ensures fresh(out) && out[..] == Concat(chunks)
  {
    var total := TotalLength(chunks);
    out := new Byte[total](_ => 0);
    var offset := 0;
    for i := 0 to |chunks|
      invariant offset + |Concat(chunks[i..])| == out.Length
      invariant out[..offset] + Concat(chunks[i..]) == Concat(chunks)
    {
      assert chunks[i..][1..] == chunks[i + 1..];
      ghost var done := out[..offset];
      SetAt(out, chunks[i], offset);
      offset := offset + |chunks[i]|;
      assert out[..offset] == done + chunks[i];
      assert done + (chunks[i] + Concat(chunks[i + 1..])) == (done + chunks[i]) + Concat(chunks[i + 1..]);
    }
    assert out[..] == out[..offset] + [];
  }
}
