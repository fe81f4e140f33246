/**
 The four entry points of the Snappy reference library that the generator and
 the validator call. The library itself is not part of this model: it is an
 oracle handed in as a value, so every property below holds for whatever the
 library does, unless a lemma says which library behaviour it assumes.
 */
module Codec {
  import opened Wrappers
  import opened ByteStrings

  /**
   snappy::Compress, snappy::IsValidCompressedBuffer, snappy::GetUncompressedLength
   (false, or true with the length written through its out-parameter) and
   snappy::Uncompress (false, or true with the output written through its
   out-parameter).
   */
  datatype Oracle = Oracle(
    compress: Bytes -> Bytes,
    isValidCompressedBuffer: Bytes -> bool,
    getUncompressedLength: Bytes -> Option<nat>,
    uncompress: Bytes -> Option<Bytes>)

  /**
   The library behaves as a lossless codec on its own output: what it compresses
   is judged valid, declares the input's length, and decompresses to the input.
   */
  ghost predicate RoundTrips(codec: Oracle) {
    forall x: Bytes ::
      && codec.isValidCompressedBuffer(codec.compress(x))
      && codec.getUncompressedLength(codec.compress(x)) == Some(|x|)
      && codec.uncompress(codec.compress(x)) == Some(x)
  }
}
