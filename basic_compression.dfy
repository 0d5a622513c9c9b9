/** Format detection and codec constructors for plain `io::Read`/`io::Write`
    streams (src/basic/compression.rs). */
module BasicCompression {
  import opened Errors
  import opened Streams
  import opened Levels

  /** `Format`: the compression container of a stream, or `No` for none. */
  datatype Format = Gzip | Bzip | Lzma | Zstd | No

  /** `Format::Xz`, a second name for the LZMA/XZ format. */
  const Xz: Format := Lzma

  /** A format that has a codec behind it. */
  type Codec = f: Format | f != No witness Gzip

  const GzipMagic: seq<bv8> := [0x1f, 0x8b]
  const BzipMagic: seq<bv8> := [0x42, 0x5a]
  const ZstdMagic: seq<bv8> := [0x28, 0xb5, 0x2f, 0xfd]
  const LzmaMagic: seq<bv8> := [0xfd, 0x37, 0x7a, 0x58, 0x5a]

  /** The build configuration: which codec features were compiled in, and
      whether the zstd library, when asked, refuses to set up a stream (its
      constructors are the only ones that can fail). */
  datatype Codecs = Codecs(enabled: set<Format>, zstdFails: bool)

  /** What a reader dispatch hands back: the stream itself, or a decoder of
      `codec` reading from `inner`. `multiMember` tells the multi-member
      decoders (flate2's `MultiGzDecoder`, bzip2's `MultiBzDecoder`), which
      go on past the end of the first compressed member, from the others. */
  datatype Source<R> = Unchanged(stream: R) | Decoding(codec: Codec, multiMember: bool, inner: R)

  /** What a writer dispatch hands back: the stream itself, or an encoder of
      `codec` at the library's own `native` level writing into `inner`. */
  datatype Sink<W> = Direct(out: W) | Encoding(codec: Codec, native: int, inner: W)

  /** Classifies the first five bytes of a stream. Total: every input has a
      format, and the four magic numbers are disjoint, so the order of the
      tests does not matter. */
  function Bytes2Type(bytes: Bytes5): (f: Format)
    ensures f == Gzip <==> StartsWith(bytes, GzipMagic)
    ensures f == Bzip <==> StartsWith(bytes, BzipMagic)
    ensures f == Zstd <==> StartsWith(bytes, ZstdMagic)
    ensures f == Lzma <==> bytes == LzmaMagic
    ensures f == No <==>
      !StartsWith(bytes, GzipMagic) && !StartsWith(bytes, BzipMagic) &&
      !StartsWith(bytes, ZstdMagic) && bytes != LzmaMagic
  {
    if bytes[0] == 0x1f && bytes[1] == 0x8b then Gzip
    else if bytes[0] == 0x42 && bytes[1] == 0x5a then Bzip
    else if bytes[0] == 0x28 && bytes[1] == 0xb5 && bytes[2] == 0x2f && bytes[3] == 0xfd then Zstd
    else if bytes[0] == 0xfd && bytes[1] == 0x37 && bytes[2] == 0x7a && bytes[3] == 0x58 && bytes[4] == 0x5a then Lzma
    else No
  }

  /** The level each codec library receives: flate2 and bzip2 get their
      saturated 0-9 scale, liblzma the `u32` and zstd the `i32` number. */
  function NativeLevel(codec: Codec, level: Level): (n: int)
    ensures codec == Gzip || codec == Bzip ==> n == Min(ToU32(level), 9) && 0 <= n <= 9
    ensures codec == Lzma || codec == Zstd ==> n == ToU32(level)
  {
    match codec
    case Gzip => Flate2(level)
    case Bzip => Bzip2(level)
    case Lzma => ToU32(level)
    case Zstd => ToI32(level)
  }

  /** The encoder constructors: those generated by `impl_format!` for gz, bz2
      and lzma, and `zstd::encoder`. A disabled codec ignores its arguments. */
  function NewEncoder<W>(c: Codecs, codec: Codec, out: W, level: Level): (r: Result<Sink<W>, Error>)
    ensures codec !in c.enabled ==> r == Err(FeatureDisabled)
    ensures r.Ok? <==> codec in c.enabled && !(codec == Zstd && c.zstdFails)
    ensures r.Ok? ==> r.value == Encoding(codec, NativeLevel(codec, level), out)
    ensures r.Err? && codec in c.enabled ==> r.error == IOError(CodecInit)
  {
    if codec !in c.enabled then Err(FeatureDisabled)
    else if codec == Zstd && c.zstdFails then Err(IOError(CodecInit))
    else Ok(Encoding(codec, NativeLevel(codec, level), out))
  }

  /** The decoder constructors; a decoder is tagged with its own format.
      gzip and bzip2 streams are read by the multi-member decoders. */
  function NewDecoder<R>(c: Codecs, codec: Codec, inp: R): (r: Result<(Source<R>, Format), Error>)
    ensures codec !in c.enabled ==> r == Err(FeatureDisabled)
    ensures r.Ok? <==> codec in c.enabled && !(codec == Zstd && c.zstdFails)
    ensures r.Ok? ==> r.value == (Decoding(codec, codec == Gzip || codec == Bzip, inp), codec)
    ensures r.Err? && codec in c.enabled ==> r.error == IOError(CodecInit)
  {
    if codec !in c.enabled then Err(FeatureDisabled)
    else if codec == Zstd && c.zstdFails then Err(IOError(CodecInit))
    else Ok((Decoding(codec, codec == Gzip || codec == Bzip, inp), codec))
  }

  /** `Xz` and `Lzma` are one format. */
  lemma XzIsLzma()
    ensures Xz == Lzma
    ensures Bytes2Type(LzmaMagic) == Xz
  {
  }

  /** No input starts with two of the four magic numbers. */
  lemma MagicsDisjoint(bytes: Bytes5)
    ensures !(StartsWith(bytes, GzipMagic) && StartsWith(bytes, BzipMagic))
    ensures !(StartsWith(bytes, GzipMagic) && StartsWith(bytes, ZstdMagic))
    ensures !(StartsWith(bytes, GzipMagic) && bytes == LzmaMagic)
    ensures !(StartsWith(bytes, BzipMagic) && StartsWith(bytes, ZstdMagic))
    ensures !(StartsWith(bytes, BzipMagic) && bytes == LzmaMagic)
    ensures !(StartsWith(bytes, ZstdMagic) && bytes == LzmaMagic)
  {
  }
}
