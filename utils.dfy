/** The peek helpers of src/utils.rs: read the classification window off a
    stream, either consuming it or rewinding the stream afterwards. */
module Utils {
  import opened Errors
  import opened Streams

  /** `get_first_five`: reads exactly five bytes. Every `read_exact` failure,
      a genuine transport error included, is reported as `FileTooShort`. */
  method GetFirstFive(s: ByteStream) returns (r: Result<Bytes5, Error>)
    requires s.Valid()
    modifies s
    ensures s.Valid()
    ensures 5 <= |old(s.Remaining())| ==> r == Ok(old(s.Remaining())[..5]) && s.pos == old(s.pos) + 5
    ensures |old(s.Remaining())| < 5 ==> r == Err(FileTooShort)
  {
    var read := s.ReadExact(5);
    match read
    case Ok(buf) => r := Ok(buf);
    case Err(_) => r := Err(FileTooShort);
  }

  /** `get_first_bytes`: reads exactly seventeen bytes, then seeks to absolute
      offset 0 (not back to where the stream was). A short read is
      `FileTooShort` and seeks nothing; a failing seek is an `IOError`. */
  method GetFirstBytes(s: ByteStream) returns (r: Result<Bytes17, Error>)
    requires s.Valid()
    modifies s
    ensures s.Valid()
    ensures |old(s.Remaining())| < 17 ==> r == Err(FileTooShort) && s.pos == |s.data|
    ensures 17 <= |old(s.Remaining())| && s.seekable ==>
      r == Ok(old(s.Remaining())[..17]) && s.pos == 0 && s.Remaining() == s.data
    ensures 17 <= |old(s.Remaining())| && !s.seekable ==>
      r == Err(IOError(Unseekable)) && s.pos == old(s.pos) + 17
  {
    var read := s.ReadExact(17);
    match read
    case Err(_) =>
      r := Err(FileTooShort);
    case Ok(buf) =>
      var sought := s.SeekToStart();
      match sought
      case Err(e) => r := Err(IOError(e));
      case Ok(_) => r := Ok(buf);
  }
}
