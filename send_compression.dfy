/** Format detection and codec constructors for `Send` streams
    (src/send/compression.rs). The `Format` enum there is declared exactly
    as in src/basic/compression.rs and shares its model; the `Send` bound is
    a property of the stream type and has no behaviour to model. */
module SendCompression {
  import opened Errors
  import opened Streams
  import opened Levels
  import opened BasicCompression

  /** The `Send` classifier. It tests the LZMA magic before the zstd one,
      the reverse of the plain classifier, and still agrees with it. */
  function SendBytes2Type(bytes: Bytes5): (f: Format)
    ensures f == BasicCompression.Bytes2Type(bytes)
  {
    if bytes[0] == 0x1f && bytes[1] == 0x8b then Gzip
    else if bytes[0] == 0x42 && bytes[1] == 0x5a then Bzip
    else if bytes[0] == 0xfd && bytes[1] == 0x37 && bytes[2] == 0x7a && bytes[3] == 0x58 && bytes[4] == 0x5a then Lzma
    else if bytes[0] == 0x28 && bytes[1] == 0xb5 && bytes[2] == 0x2f && bytes[3] == 0xfd then Zstd
    else No
  }

  /** `new_gz_encoder`, `new_bz2_encoder`, `new_lzma_encoder` and
      `new_zstd_encoder`, each gated by its cargo feature. */
  function NewSendEncoder<W>(c: Codecs, codec: Codec, out: W, level: Level): (r: Result<Sink<W>, Error>)
    ensures codec !in c.enabled ==> r == Err(FeatureDisabled)
    ensures codec in c.enabled && codec != Zstd ==> r == Ok(Encoding(codec, NativeLevel(codec, level), out))
    ensures codec == Zstd && codec in c.enabled ==>
      r == if c.zstdFails then Err(IOError(CodecInit)) else Ok(Encoding(Zstd, ToI32(level), out))
  {
    match codec
    case Gzip => if Gzip in c.enabled then Ok(Encoding(Gzip, Flate2(level), out)) else Err(FeatureDisabled)
    case Bzip => if Bzip in c.enabled then Ok(Encoding(Bzip, Bzip2(level), out)) else Err(FeatureDisabled)
    case Lzma => if Lzma in c.enabled then Ok(Encoding(Lzma, ToU32(level), out)) else Err(FeatureDisabled)
    case Zstd =>
      if Zstd !in c.enabled then Err(FeatureDisabled)
      else if c.zstdFails then Err(IOError(CodecInit))
      else Ok(Encoding(Zstd, ToI32(level), out))
  }

  /** `new_gz_decoder`, `new_bz2_decoder`, `new_lzma_decoder` and
      `new_zstd_decoder`, each gated by its cargo feature. Only gzip gets a
      multi-member decoder; bzip2 gets the single-member `BzDecoder`. */
  function NewSendDecoder<R>(c: Codecs, codec: Codec, inp: R): (r: Result<(Source<R>, Format), Error>)
    ensures codec !in c.enabled ==> r == Err(FeatureDisabled)
    ensures r.Ok? ==> r.value == (Decoding(codec, codec == Gzip, inp), codec)
    ensures codec in c.enabled && codec != Zstd ==> r.Ok?
    ensures codec == Zstd && codec in c.enabled ==> (r.Ok? <==> !c.zstdFails)
    ensures r.Err? && codec in c.enabled ==> r.error == IOError(CodecInit)
  {
    match codec
    case Gzip => if Gzip in c.enabled then Ok((Decoding(Gzip, true, inp), Gzip)) else Err(FeatureDisabled)
    case Bzip => if Bzip in c.enabled then Ok((Decoding(Bzip, false, inp), Bzip)) else Err(FeatureDisabled)
    case Lzma => if Lzma in c.enabled then Ok((Decoding(Lzma, false, inp), Lzma)) else Err(FeatureDisabled)
    case Zstd =>
      if Zstd !in c.enabled then Err(FeatureDisabled)
      else if c.zstdFails then Err(IOError(CodecInit))
      else Ok((Decoding(Zstd, false, inp), Zstd))
  }

  /** The `Send` constructors behave as the plain ones, except that an enabled
      bzip2 decoder is the single-member one instead of the multi-member one. */
  lemma SendConstructorsMatchBasic<R, W>(c: Codecs, codec: Codec, inp: R, out: W, level: Level)
    ensures codec != Bzip || Bzip !in c.enabled ==> NewSendDecoder(c, codec, inp) == NewDecoder(c, codec, inp)
    ensures codec == Bzip && Bzip in c.enabled ==>
      && NewSendDecoder(c, codec, inp) == Ok((Decoding(Bzip, false, inp), Bzip))
      && NewDecoder(c, codec, inp) == Ok((Decoding(Bzip, true, inp), Bzip))
    ensures NewSendEncoder(c, codec, out, level) == NewEncoder(c, codec, out, level)
  {
  }
}
