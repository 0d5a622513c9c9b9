/** The entry points for seekable `Send` streams (src/seeksend/mod.rs): the
    seekable ones again, over `ReadSeek + Send`. Its `compression` submodule
    is taken to be src/seek/compression.rs. */
module SeekSend {
  import opened Errors
  import opened Streams
  import opened Levels
  import opened SeekCompression
  import Seek
  import Utils

  /** `sniff`: the same contract as the seekable `sniff`. */
  method SeekSendSniff(s: ByteStream) returns (r: Result<(ByteStream, Format), Error>)
    requires s.Valid()
    modifies s
    ensures s.Valid()
    ensures |old(s.Remaining())| < 17 ==> r == Err(FileTooShort)
    ensures 17 <= |old(s.Remaining())| && !s.seekable ==> r == Err(IOError(Unseekable))
    ensures 17 <= |old(s.Remaining())| && s.seekable ==>
      && r.Ok? && r.value.0 == s
      && s.pos == 0 && s.Remaining() == s.data
      && (r.value.1 == BGzip <==> old(s.Remaining())[..17] == BgzfHeader)
  {
    var first := Utils.GetFirstBytes(s);
    if first.Err? {
      return Err(first.error);
    }
    var e := SeekBytes2Type(first.value);
    match e
    case BGzip => r := Ok((s, e));
    case No => r := Ok((s, No));
  }

  /** `get_reader`: `No` comes back unchanged, BGZF is refused. */
  method SeekSendGetReader(s: ByteStream) returns (r: Result<(ByteStream, Format), Error>)
    requires s.Valid()
    modifies s
    ensures s.Valid()
    ensures |old(s.Remaining())| < 17 ==> r == Err(FileTooShort)
    ensures 17 <= |old(s.Remaining())| && !s.seekable ==> r == Err(IOError(Unseekable))
    ensures 17 <= |old(s.Remaining())| && s.seekable ==>
      && s.pos == 0
      && (old(s.Remaining())[..17] == BgzfHeader ==> r == Err(FeatureDisabled))
      && (old(s.Remaining())[..17] != BgzfHeader ==> r == Ok((s, No)))
  {
    var sniffed := SeekSendSniff(s);
    if sniffed.Err? {
      return Err(sniffed.error);
    }
    var (stream, compression) := sniffed.value;
    match compression
    case No => r := Ok((stream, No));
    case _ => r := Err(FeatureDisabled);
  }

  /** `get_writer`: only `No` is writable; the level is never looked at. */
  function SeekSendGetWriter<W>(out: W, format: Format, level: Level): (r: Result<W, Error>)
    ensures r.Ok? <==> format == No
    ensures r.Ok? ==> r.value == out
    ensures r.Err? ==> r.error == FeatureDisabled
  {
    match format
    case No => Ok(out)
    case _ => Err(FeatureDisabled)
  }

  /** The writer agrees with the seekable one and ignores the level. */
  lemma WriterMatchesSeek<W>(out: W, format: Format, a: Level, b: Level)
    ensures SeekSendGetWriter(out, format, a) == Seek.SeekGetWriter(out, format, a)
    ensures SeekSendGetWriter(out, format, a) == SeekSendGetWriter(out, format, b)
  {
  }
}
