/** Format detection for seekable streams (src/seek/compression.rs): only the
    block-gzip (BGZF) container is recognised, by its whole first-block
    header. */
module SeekCompression {
  import opened Streams
  import BasicCompression

  datatype Format = BGzip | No

  /** The 17-byte header every BGZF file starts with. */
  const BgzfHeader: seq<bv8> :=
    [0x1F, 0x8B, 0x08, 0x04, 0x00, 0x00, 0x00, 0x00, 0x00, 0xFF, 0x06, 0x00, 0x42, 0x43, 0x02, 0x00, 0x00]

  /** An exact match of all 17 bytes; anything else is `No`. */
  function SeekBytes2Type(bytes: Bytes17): (f: Format)
    ensures f == BGzip <==> bytes == BgzfHeader
    ensures f == No <==> bytes != BgzfHeader
  {
    if bytes[0] == 0x1F && bytes[1] == 0x8B && bytes[2] == 0x08 && bytes[3] == 0x04
      && bytes[4] == 0x00 && bytes[5] == 0x00 && bytes[6] == 0x00 && bytes[7] == 0x00
      && bytes[8] == 0x00 && bytes[9] == 0xFF && bytes[10] == 0x06 && bytes[11] == 0x00
      && bytes[12] == 0x42 && bytes[13] == 0x43 && bytes[14] == 0x02 && bytes[15] == 0x00
      && bytes[16] == 0x00
    then BGzip
    else No
  }

  /** Changing any single byte of the header makes it unrecognised. */
  lemma OneByteOffIsNo(k: nat, b: bv8)
    requires k < |BgzfHeader| && b != BgzfHeader[k]
    ensures |BgzfHeader[k := b]| == 17
    ensures SeekBytes2Type(BgzfHeader[k := b]) == No
  {
    assert BgzfHeader[k := b][k] != BgzfHeader[k];
  }

  /** A BGZF file is also a gzip file: its first five bytes classify as Gzip. */
  lemma HeaderIsGzip()
    ensures |BgzfHeader[..5]| == 5
    ensures BasicCompression.Bytes2Type(BgzfHeader[..5]) == BasicCompression.Gzip
  {
  }
}
