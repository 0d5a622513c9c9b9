/** The historical type declarations (src/types.rs, no longer declared by
    src/lib.rs): the same format enum and level enum as src/compression.rs,
    and an error type without the I/O case. */
module LegacyTypes {
  import opened Streams
  import BasicCompression
  import opened LegacyCompression

  /** `CompressionFormat`: declared with the same discriminants as
      `compression::Format`, so it is the same type here. */
  type CompressionFormat = LegacyCompression.Format

  /** `CompressionLevel`: the same nine levels and conversions as
      `compression::Level`. */
  type CompressionLevel = LegacyCompression.Level

  /** `NifflerError`: only the two errors that need no I/O. */
  datatype NifflerError = FeatureDisabled | FileTooShort

  /** Each discriminant is its format's magic number read big-endian, and
      `No` takes the next value after Lzma; looking a discriminant up gives
      its format back. */
  lemma DiscriminantsAreMagic()
    ensures Discriminant(Gzip) == BigEndian(BasicCompression.GzipMagic)
    ensures Discriminant(Bzip) == BigEndian(BasicCompression.BzipMagic)
    ensures Discriminant(Lzma) == BigEndian(BasicCompression.LzmaMagic)
    ensures Discriminant(No) == Discriminant(Lzma) + 1
    ensures forall f: CompressionFormat :: FromU64(Discriminant(f)) == Some(f)
  {
    var magic: Bytes5 := BasicCompression.LzmaMagic;
    BigEndianFive(magic);
    var gzip: Bytes5 := BasicCompression.GzipMagic + [0, 0, 0];
    BigEndianTwo(gzip);
    assert gzip[..2] == BasicCompression.GzipMagic;
    var bzip: Bytes5 := BasicCompression.BzipMagic + [0, 0, 0];
    BigEndianTwo(bzip);
    assert bzip[..2] == BasicCompression.BzipMagic;
  }

  /** The three conversion tables, level by level in declaration order:
      One..Nine give 1..9 both as `u32` and as a flate2 level, and bzip2
      gets Fastest for One, Best for Nine and Default in between. */
  lemma {:induction false} CompressionLevelTables(k: nat)
    requires k < |LevelOrder|
    ensures ToU32(LevelOrder[k]) == k + 1
    ensures Flate2(LevelOrder[k]) == k + 1
    ensures Bzip2(LevelOrder[k]) == (if k == 0 then Fastest else if k == 8 then Best else Default)
  {
    LevelPosition(k);
  }
}
