/** The entry points for seekable streams (src/seek/mod.rs). The format can
    be detected, but no BGZF codec is wired in: reading or writing it fails
    with `FeatureDisabled`. */
module Seek {
  import opened Errors
  import opened Streams
  import opened Levels
  import opened SeekCompression
  import Utils

  /** `sniff`: reads seventeen bytes, rewinds the same stream to offset 0 and
      returns that stream, not a wrapper. */
  method SeekSniff(s: ByteStream) returns (r: Result<(ByteStream, Format), Error>)
    requires s.Valid()
    modifies s
    ensures s.Valid()
    ensures |old(s.Remaining())| < 17 ==> r == Err(FileTooShort)
    ensures 17 <= |old(s.Remaining())| && !s.seekable ==> r == Err(IOError(Unseekable))
    ensures 17 <= |old(s.Remaining())| && s.seekable ==>
      && r.Ok? && r.value.0 == s
      && s.pos == 0 && s.Remaining() == s.data
      && r.value.1 == SeekBytes2Type(old(s.Remaining())[..17])
  {
    var first := Utils.GetFirstBytes(s);
    if first.Err? {
      return Err(first.error);
    }
    var e := SeekBytes2Type(first.value);
    match e
    case BGzip => r := Ok((s, e));
    case No => r := Ok((s, No));
  }

  /** `get_reader`: an undetected stream comes back rewound and unwrapped; a
      detected BGZF stream is refused. */
  method SeekGetReader(s: ByteStream) returns (r: Result<(ByteStream, Format), Error>)
    requires s.Valid()
    modifies s
    ensures s.Valid()
    ensures |old(s.Remaining())| < 17 ==> r == Err(FileTooShort)
    ensures 17 <= |old(s.Remaining())| && !s.seekable ==> r == Err(IOError(Unseekable))
    ensures 17 <= |old(s.Remaining())| && s.seekable ==>
      && s.pos == 0
      && (old(s.Remaining())[..17] == BgzfHeader ==> r == Err(FeatureDisabled))
      && (old(s.Remaining())[..17] != BgzfHeader ==> r == Ok((s, No)))
  {
    var sniffed := SeekSniff(s);
    if sniffed.Err? {
      return Err(sniffed.error);
    }
    var (stream, compression) := sniffed.value;
    match compression
    case No => r := Ok((stream, No));
    case _ => r := Err(FeatureDisabled);
  }

  /** `get_writer`: only `No` is writable, whatever the level. */
  function SeekGetWriter<W>(out: W, format: Format, level: Level): (r: Result<W, Error>)
    ensures r.Ok? <==> format == No
    ensures r.Ok? ==> r.value == out
    ensures r.Err? ==> r.error == FeatureDisabled
  {
    match format
    case No => Ok(out)
    case _ => Err(FeatureDisabled)
  }
}
