/** A stand-in for the `std::io` streams niffler is handed: a byte source
    that is read forward, may end in an I/O error instead of a clean end of
    file, and may or may not accept `seek(SeekFrom::Start(0))`. */
module Streams {
  import opened Errors

  /** The fixed-size buffers niffler reads into: `[u8; 5]` and `[u8; 17]`. */
  type Bytes5 = s: seq<bv8> | |s| == 5 witness [0, 0, 0, 0, 0]
  type Bytes17 = s: seq<bv8> | |s| == 17 witness [0, 0, 0, 0, 0, 0, 0, 0, 0, 0, 0, 0, 0, 0, 0, 0, 0]

  predicate StartsWith(s: seq<bv8>, prefix: seq<bv8>) {
    |prefix| <= |s| && s[..|prefix|] == prefix
  }

  class ByteStream {
    /** Every byte the transport delivers, from absolute offset 0. */
    const data: seq<bv8>
    /** Whether the transport reports an I/O error, rather than end of file,
        once `data` is exhausted. */
    const failsAtEnd: bool
    /** Whether `seek` succeeds (a regular file) or fails (a pipe, a chain). */
    const seekable: bool
    /** The absolute offset of the next byte to be read. */
    var pos: nat

    ghost predicate Valid()
      reads this
    {
      pos <= |data|
    }

    /** The bytes a `read_to_end` from here would produce. */
    function Remaining(): (rest: seq<bv8>)
      reads this
      requires Valid()
      ensures |rest| == |data| - pos
      ensures data == data[..pos] + rest
    {
      data[pos..]
    }

    constructor (data: seq<bv8>, failsAtEnd: bool, seekable: bool)
      ensures Valid() && pos == 0 && Remaining() == data
      ensures this.data == data && this.failsAtEnd == failsAtEnd && this.seekable == seekable
    {
      this.data := data;
      this.failsAtEnd := failsAtEnd;
      this.seekable := seekable;
      pos := 0;
    }

    /** `io::Cursor::new(prefix).chain(rest)`: replays `prefix`, then whatever
        `rest` still has. The chain owns `rest`, so nobody else can read it
        afterwards; the model therefore copies its remaining bytes. A chain
        does not implement `Seek`. */
    constructor Chain(prefix: seq<bv8>, rest: ByteStream)
      requires rest.Valid()
      ensures Valid() && pos == 0
      ensures Remaining() == prefix + rest.Remaining()
      ensures failsAtEnd == rest.failsAtEnd && !seekable
    {
      data := prefix + rest.data[rest.pos..];
      failsAtEnd := rest.failsAtEnd;
      seekable := false;
      pos := 0;
    }

    /** `read_exact` into an `n`-byte buffer. When fewer than `n` bytes are
        left, everything left is consumed and the call fails. */
    method ReadExact(n: nat) returns (r: Result<seq<bv8>, IoKind>)
      requires Valid()
      modifies this
      ensures Valid()
      ensures n <= |old(Remaining())| ==> r == Ok(old(Remaining())[..n]) && pos == old(pos) + n
      ensures |old(Remaining())| < n ==>
        r == Err(if failsAtEnd then Transport else UnexpectedEof) && pos == |data|
    {
      if pos + n <= |data| {
        assert data[pos..pos + n] == data[pos..][..n];
        r := Ok(data[pos..pos + n]);
        pos := pos + n;
      } else {
        r := Err(if failsAtEnd then Transport else UnexpectedEof);
        pos := |data|;
      }
    }

    /** `seek(SeekFrom::Start(0))`. */
    method SeekToStart() returns (r: Result<(), IoKind>)
      requires Valid()
      modifies this
      ensures Valid()
      ensures seekable ==> r == Ok(()) && pos == 0 && Remaining() == data
      ensures !seekable ==> r == Err(Unseekable) && pos == old(pos)
    {
      if seekable {
        pos := 0;
        r := Ok(());
      } else {
        r := Err(Unseekable);
      }
    }
  }
}
