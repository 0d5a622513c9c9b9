/** The stream-level entry points for plain streams (src/basic/mod.rs):
    `sniff`, `get_reader` and `get_writer`. The path helpers only open files
    and are not modelled. */
module Basic {
  import opened Errors
  import opened Streams
  import opened Levels
  import opened BasicCompression
  import Utils

  /** `sniff`: peeks five bytes, classifies them, and hands back a stream
      that replays them before the rest, so nothing is lost. */
  method Sniff(s: ByteStream) returns (r: Result<(ByteStream, Format), Error>)
    requires s.Valid()
    modifies s
    ensures |old(s.Remaining())| < 5 ==> r == Err(FileTooShort)
    ensures 5 <= |old(s.Remaining())| ==>
      && r.Ok?
      && fresh(r.value.0) && r.value.0.Valid()
      && r.value.0.Remaining() == old(s.Remaining())
      && r.value.0.failsAtEnd == s.failsAtEnd
      && r.value.1 == Bytes2Type(old(s.Remaining())[..5])
  {
    var first := Utils.GetFirstFive(s);
    if first.Err? {
      return Err(first.error);
    }
    var firstBytes := first.value;
    var chained := new ByteStream.Chain(firstBytes, s);
    assert chained.Remaining() == old(s.Remaining());
    var e := Bytes2Type(firstBytes);
    match e
    case Gzip | Bzip | Lzma | Zstd => r := Ok((chained, e));
    case No => r := Ok((chained, No));
  }

  /** `get_reader`: sniffs, then hands the restored stream to the decoder of
      the detected format, or back unchanged when there is none. */
  method GetReader(c: Codecs, s: ByteStream) returns (r: Result<(Source<ByteStream>, Format), Error>)
    requires s.Valid()
    modifies s
    ensures |old(s.Remaining())| < 5 ==> r == Err(FileTooShort)
    ensures 5 <= |old(s.Remaining())| && Bytes2Type(old(s.Remaining())[..5]) == No ==>
      && r.Ok? && r.value.1 == No && r.value.0.Unchanged?
      && fresh(r.value.0.stream) && r.value.0.stream.Valid()
      && r.value.0.stream.Remaining() == old(s.Remaining())
    ensures 5 <= |old(s.Remaining())| && Bytes2Type(old(s.Remaining())[..5]) != No ==>
      var f := Bytes2Type(old(s.Remaining())[..5]);
      && (f !in c.enabled ==> r == Err(FeatureDisabled))
      && (r.Ok? <==> f in c.enabled && !(f == Zstd && c.zstdFails))
      && (r.Err? && f in c.enabled ==> r.error == IOError(CodecInit))
      && (r.Ok? ==>
            && r.value.1 == f && r.value.0.Decoding? && r.value.0.codec == f
            && r.value.0.multiMember == (f == Gzip || f == Bzip)
            && fresh(r.value.0.inner) && r.value.0.inner.Valid()
            && r.value.0.inner.Remaining() == old(s.Remaining()))
  {
    var sniffed := Sniff(s);
    if sniffed.Err? {
      return Err(sniffed.error);
    }
    var (stream, compression) := sniffed.value;
    match compression
    case Gzip => r := NewDecoder(c, Gzip, stream);
    case Bzip => r := NewDecoder(c, Bzip, stream);
    case Lzma => r := NewDecoder(c, Lzma, stream);
    case Zstd => r := NewDecoder(c, Zstd, stream);
    case No => r := Ok((Unchanged(stream), No));
  }

  /** `get_writer`: `No` passes the output stream through; any other format
      goes to its encoder. Nothing is read, so it never fails as too short. */
  function GetWriter<W>(c: Codecs, out: W, format: Format, level: Level): (r: Result<Sink<W>, Error>)
    ensures format == No ==> r == Ok(Direct(out))
    ensures r.Err? ==> r.error != FileTooShort
    ensures format != No ==>
      && (format !in c.enabled ==> r == Err(FeatureDisabled))
      && (r.Ok? <==> format in c.enabled && !(format == Zstd && c.zstdFails))
      && (r.Err? && format in c.enabled ==> r.error == IOError(CodecInit))
      && (r.Ok? ==> r.value == Encoding(format, NativeLevel(format, level), out))
  {
    match format
    case Gzip => NewEncoder(c, Gzip, out, level)
    case Bzip => NewEncoder(c, Bzip, out, level)
    case Lzma => NewEncoder(c, Lzma, out, level)
    case Zstd => NewEncoder(c, Zstd, out, level)
    case No => Ok(Direct(out))
  }
}
