/** The historical detector (src/compression.rs, no longer declared by
    src/lib.rs): the first five bytes are packed big-endian into a `u64` and
    looked up among the `#[repr(u64)]` discriminants of `Format`. */
module LegacyCompression {
  import opened Errors
  import opened Streams
  import BasicCompression
  import Utils

  datatype Option<T> = None | Some(value: T)

  datatype Format = Gzip | Bzip | Lzma | No

  /** The discriminants: each magic number read as a big-endian integer;
      `No` takes the value after `Lzma`. */
  function Discriminant(f: Format): bv64 {
    match f
    case Gzip => 0x1F8B
    case Bzip => 0x425A
    case Lzma => 0x00FD_377A_585A
    case No => 0x00FD_377A_585B
  }

  /** `Format::from_u64`, generated by `enum_from_primitive!`. */
  function FromU64(v: bv64): (r: Option<Format>)
    ensures r.Some? ==> Discriminant(r.value) == v
    ensures r.None? ==> forall f: Format :: Discriminant(f) != v
  {
    if v == 0x1F8B then Some(Gzip)
    else if v == 0x425A then Some(Bzip)
    else if v == 0x00FD_377A_585A then Some(Lzma)
    else if v == 0x00FD_377A_585B then Some(No)
    else None
  }

  /** The big-endian value of up to eight bytes: each new byte is shifted in
      below the ones before it. */
  function BigEndian(bytes: seq<bv8>): bv64
    requires |bytes| <= 8
  {
    if bytes == [] then 0
    else (BigEndian(bytes[..|bytes| - 1]) << 8) | (bytes[|bytes| - 1] as bv64)
  }

  /** `u64::from(x) << (8 * k)`: byte `x` moved up by `k` whole bytes. It is
      written as `k` shifts by eight so that the shift amount is always a
      literal. */
  function Place(x: bv8, k: nat): bv64
    requires k < 8
  {
    if k == 0 then x as bv64 else Place(x, k - 1) << 8
  }

  /** What a packing loop over `n` bytes has accumulated after its first `i`
      rounds: byte j OR-ed in `n - 1 - j` bytes up. */
  function Accumulated(bytes: seq<bv8>, n: nat, i: nat): bv64
    requires i <= n <= |bytes| && n <= 8
  {
    if i == 0 then 0
    else Accumulated(bytes, n, i - 1) | Place(bytes[i - 1], n - i)
  }

  /** The five bytes laid out from bit 39 down to bit 0. */
  function Spread(b: Bytes5): bv64 {
    ((b[0] as bv64) << 32) | ((b[1] as bv64) << 24) | ((b[2] as bv64) << 16) |
    ((b[3] as bv64) << 8) | (b[4] as bv64)
  }

  // The lemmas below unfold `Place`, `Accumulated` and `BigEndian` one step at
  // a time for the fixed sizes the loops use. One inductive lemma over a
  // symbolic byte count would need symbolic shift amounts, which the solver
  // handles far too slowly on 64-bit vectors.

  lemma PlaceOne(x: bv8)
    ensures Place(x, 1) == (x as bv64) << 8
  {
  }

  lemma PlaceTwo(x: bv8)
    ensures Place(x, 2) == (x as bv64) << 16
  {
    PlaceOne(x);
  }

  lemma PlaceThree(x: bv8)
    ensures Place(x, 3) == (x as bv64) << 24
  {
    PlaceTwo(x);
  }

  lemma PlaceFour(x: bv8)
    ensures Place(x, 4) == (x as bv64) << 32
  {
    PlaceThree(x);
  }

  lemma AccumulatedOneOfFive(b: Bytes5)
    ensures Accumulated(b, 5, 1) == (b[0] as bv64) << 32
  {
    PlaceFour(b[0]);
  }

  lemma AccumulatedTwoOfFive(b: Bytes5)
    ensures Accumulated(b, 5, 2) == ((b[0] as bv64) << 32) | ((b[1] as bv64) << 24)
  {
    AccumulatedOneOfFive(b);
    PlaceThree(b[1]);
  }

  lemma AccumulatedThreeOfFive(b: Bytes5)
    ensures Accumulated(b, 5, 3) ==
      ((b[0] as bv64) << 32) | ((b[1] as bv64) << 24) | ((b[2] as bv64) << 16)
  {
    AccumulatedTwoOfFive(b);
    PlaceTwo(b[2]);
  }

  lemma AccumulatedFourOfFive(b: Bytes5)
    ensures Accumulated(b, 5, 4) ==
      ((b[0] as bv64) << 32) | ((b[1] as bv64) << 24) | ((b[2] as bv64) << 16) | ((b[3] as bv64) << 8)
  {
    AccumulatedThreeOfFive(b);
    PlaceOne(b[3]);
  }

  lemma AccumulatedOneOfTwo(b: Bytes5)
    ensures Accumulated(b, 2, 1) == (b[0] as bv64) << 8
  {
    PlaceOne(b[0]);
  }

  lemma BigEndianStep(b: seq<bv8>, k: nat)
    requires 1 <= k <= |b| && k <= 8
    ensures BigEndian(b[..k]) == (BigEndian(b[..k - 1]) << 8) | (b[k - 1] as bv64)
  {
    assert b[..k][..k - 1] == b[..k - 1];
  }

  lemma BigEndianOne(b: Bytes5)
    ensures BigEndian(b[..1]) == b[0] as bv64
  {
  }

  lemma BigEndianTwo(b: Bytes5)
    ensures BigEndian(b[..2]) == ((b[0] as bv64) << 8) | (b[1] as bv64)
  {
    BigEndianOne(b);
    BigEndianStep(b, 2);
  }

  lemma BigEndianThree(b: Bytes5)
    ensures BigEndian(b[..3]) == ((b[0] as bv64) << 16) | ((b[1] as bv64) << 8) | (b[2] as bv64)
  {
    BigEndianTwo(b);
    BigEndianStep(b, 3);
  }

  lemma BigEndianFour(b: Bytes5)
    ensures BigEndian(b[..4]) ==
      ((b[0] as bv64) << 24) | ((b[1] as bv64) << 16) | ((b[2] as bv64) << 8) | (b[3] as bv64)
  {
    BigEndianThree(b);
    BigEndianStep(b, 4);
  }

  lemma BigEndianFive(b: Bytes5)
    ensures BigEndian(b) == Spread(b)
  {
    BigEndianFour(b);
    BigEndianStep(b, 5);
    assert b[..5] == b;
  }

  lemma SpreadIsLzma(b: Bytes5)
    ensures Spread(b) < 0x100_0000_0000
    ensures Spread(b) == 0x00FD_377A_585A <==> b == BasicCompression.LzmaMagic
  {
  }

  /** Five bytes packed by the first loop are their big-endian value. */
  lemma FiveBytesPacked(b: Bytes5)
    ensures Accumulated(b, 5, 5) == BigEndian(b)
  {
    AccumulatedFourOfFive(b);
    BigEndianFive(b);
  }

  /** Two bytes packed by the second loop are their big-endian value. */
  lemma TwoBytesPacked(b: Bytes5)
    ensures Accumulated(b, 2, 2) == BigEndian(b[..2])
  {
    AccumulatedOneOfTwo(b);
    BigEndianTwo(b);
  }

  /** The five-byte value fits in 40 bits and is the Lzma discriminant
      exactly for the Lzma magic number. */
  lemma FiveByteValue(b: Bytes5)
    ensures BigEndian(b) < 0x100_0000_0000
    ensures BigEndian(b) == Discriminant(Lzma) <==> b == BasicCompression.LzmaMagic
  {
    BigEndianFive(b);
    SpreadIsLzma(b);
  }

  /** The two-byte value fits in 16 bits and is the Gzip or Bzip
      discriminant exactly for those magic numbers. */
  lemma TwoByteValue(b: Bytes5)
    ensures BigEndian(b[..2]) < 0x1_0000
    ensures BigEndian(b[..2]) == Discriminant(Gzip) <==> StartsWith(b, BasicCompression.GzipMagic)
    ensures BigEndian(b[..2]) == Discriminant(Bzip) <==> StartsWith(b, BasicCompression.BzipMagic)
  {
  }

  /** The first loop of `read_compression`: byte i is OR-ed in 4 - i bytes up. */
  method FiveBitVal(first: Bytes5) returns (v: bv64)
    ensures v == BigEndian(first)
  {
    v := 0;
    var i := 0;
    while i < 5
      invariant 0 <= i <= 5
      invariant v == Accumulated(first, 5, i)
    {
      v := v | Place(first[i], 4 - i);
      i := i + 1;
    }
    assert i == 5;
    FiveBytesPacked(first);
  }

  /** The second loop of `read_compression`: byte i is OR-ed in 1 - i bytes up. */
  method TwoBitVal(first: Bytes5) returns (v: bv64)
    ensures v == BigEndian(first[..2])
  {
    v := 0;
    var i := 0;
    while i < 2
      invariant 0 <= i <= 2
      invariant v == Accumulated(first, 2, i)
    {
      v := v | Place(first[i], 1 - i);
      i := i + 1;
    }
    assert i == 2;
    TwoBytesPacked(first);
  }

  /** The two-byte value never reaches a five-byte discriminant, so the
      second lookup can only give Gzip, Bzip or nothing. */
  lemma TwoByteLookup(v: bv64)
    requires v < 0x1_0000
    ensures FromU64(v) != Some(Lzma) && FromU64(v) != Some(No)
    ensures FromU64(v).Some? <==> v == 0x1F8B || v == 0x425A
  {
  }

  /** The current formats seen through the legacy enum, which has no Zstd. */
  function FromCurrent(f: BasicCompression.Format): Format {
    match f
    case Gzip => Gzip
    case Bzip => Bzip
    case Lzma => Lzma
    case Zstd => No
    case No => No
  }

  /** The legacy classification, read off the current classifier: Lzma for
      the xz magic number, Gzip and Bzip for their two-byte prefixes, and `No`
      for everything else, zstd streams included. */
  lemma LegacyClassification(first: Bytes5)
    ensures FromCurrent(BasicCompression.Bytes2Type(first)) == Lzma <==> first == BasicCompression.LzmaMagic
    ensures FromCurrent(BasicCompression.Bytes2Type(first)) == Gzip <==> StartsWith(first, BasicCompression.GzipMagic)
    ensures FromCurrent(BasicCompression.Bytes2Type(first)) == Bzip <==> StartsWith(first, BasicCompression.BzipMagic)
    ensures FromCurrent(BasicCompression.Bytes2Type(first)) == No <==>
      !StartsWith(first, BasicCompression.GzipMagic) && !StartsWith(first, BasicCompression.BzipMagic) &&
      first != BasicCompression.LzmaMagic
  {
  }

  /** The classification part of `read_compression`: the five-byte lookup
      first, then the two-byte one; anything else is `No`. It agrees with the
      current classifier, zstd aside. */
  method Classify(first: Bytes5) returns (f: Format)
    ensures f == FromCurrent(BasicCompression.Bytes2Type(first))
  {
    ghost var current := BasicCompression.Bytes2Type(first);
    var five := FiveBitVal(first);
    FiveByteValue(first);
    if FromU64(five) == Some(Lzma) {
      assert current == BasicCompression.Lzma;
      return Lzma;
    }
    var two := TwoBitVal(first);
    TwoByteValue(first);
    TwoByteLookup(two);
    match FromU64(two)
    case Some(Gzip) => f := Gzip;
    case Some(Bzip) => f := Bzip;
    case _ => f := No;
  }

  /** `read_compression`: peeks five bytes (the same `get_first_five` as in
      src/utils.rs), classifies them and replays them before the rest. */
  method ReadCompression(s: ByteStream) returns (r: Result<(Format, ByteStream), Error>)
    requires s.Valid()
    modifies s
    ensures |old(s.Remaining())| < 5 ==> r == Err(FileTooShort)
    ensures 5 <= |old(s.Remaining())| ==>
      && r.Ok?
      && fresh(r.value.1) && r.value.1.Valid()
      && r.value.1.Remaining() == old(s.Remaining())
      && r.value.1.failsAtEnd == s.failsAtEnd
      && r.value.0 == FromCurrent(BasicCompression.Bytes2Type(old(s.Remaining())[..5]))
  {
    ghost var rest := s.Remaining();
    var first := Utils.GetFirstFive(s);
    if first.Err? {
      return Err(first.error);
    }
    var firstBytes := first.value;
    assert firstBytes == rest[..5];
    var format := Classify(firstBytes);
    assert format == FromCurrent(BasicCompression.Bytes2Type(rest[..5]));
    var chained := new ByteStream.Chain(firstBytes, s);
    assert chained.Remaining() == rest;
    r := Ok((format, chained));
  }

  /** The nine compression levels, One fastest and Nine smallest. */
  datatype Level = One | Two | Three | Four | Five | Six | Seven | Eight | Nine

  const LevelOrder: seq<Level> := [One, Two, Three, Four, Five, Six, Seven, Eight, Nine]

  /** `Into<u32>`: the k-th level in declaration order is k + 1. */
  function ToU32(level: Level): (n: nat)
    ensures 1 <= n <= 9 && LevelOrder[n - 1] == level
  {
    match level
    case One => 1
    case Two => 2
    case Three => 3
    case Four => 4
    case Five => 5
    case Six => 6
    case Seven => 7
    case Eight => 8
    case Nine => 9
  }

  /** `Into<flate2::Compression>`: `Compression::new` of the same number. */
  function Flate2(level: Level): (n: nat)
    ensures n == ToU32(level)
  {
    match level
    case One => 1
    case Two => 2
    case Three => 3
    case Four => 4
    case Five => 5
    case Six => 6
    case Seven => 7
    case Eight => 8
    case Nine => 9
  }

  /** The three settings of `bzip2::Compression` this conversion uses. */
  datatype BzCompression = Fastest | Default | Best

  /** Orders the bzip2 settings from fastest to smallest output. */
  function Rank(c: BzCompression): nat {
    match c
    case Fastest => 0
    case Default => 1
    case Best => 2
  }

  /** `Into<bzip2::Compression>`: One is the fastest setting, Nine the best,
      and every level in between the default. */
  function Bzip2(level: Level): (c: BzCompression)
    ensures c == Fastest <==> ToU32(level) == 1
    ensures c == Best <==> ToU32(level) == 9
    ensures c == Default <==> 2 <= ToU32(level) <= 8
  {
    match level
    case One => Fastest
    case Nine => Best
    case _ => Default
  }

  lemma LevelPosition(k: nat)
    requires k < |LevelOrder|
    ensures ToU32(LevelOrder[k]) == k + 1
  {
  }

  /** The numeric conversion is strictly increasing in declaration order. */
  lemma {:induction false} ToU32StrictlyIncreasing(i: nat, j: nat)
    requires i < j < |LevelOrder|
    ensures ToU32(LevelOrder[i]) < ToU32(LevelOrder[j])
  {
    LevelPosition(i);
    LevelPosition(j);
  }

  /** A higher level never selects a faster bzip2 setting. */
  lemma {:induction false} Bzip2Monotone(i: nat, j: nat)
    requires i <= j < |LevelOrder|
    ensures Rank(Bzip2(LevelOrder[i])) <= Rank(Bzip2(LevelOrder[j]))
  {
    LevelPosition(i);
    LevelPosition(j);
  }

  /** What an encoder constructor wraps around the output: the codec with
      the setting it was given. */
  datatype Sink<W> = BzEncoding(compression: BzCompression, inner: W) | XzEncoding(preset: nat, inner: W)

  /** What a decoder constructor wraps around the input. */
  datatype Source<R> = BzDecoding(inner: R) | XzDecoding(inner: R)

  /** `new_bz2_encoder`: a bzip2 encoder at the level's bzip2 setting when
      the `bz2` feature is built in, `FeatureDisabled` otherwise. */
  function NewBz2Encoder<W>(enabled: set<Format>, out: W, level: Level): (r: Result<Sink<W>, Error>)
    ensures r.Ok? <==> Bzip in enabled
    ensures r.Err? ==> r.error == FeatureDisabled
    ensures r.Ok? ==> r.value.BzEncoding? && r.value.inner == out && r.value.compression == Bzip2(level)
  {
    if Bzip in enabled then Ok(BzEncoding(Bzip2(level), out)) else Err(FeatureDisabled)
  }

  /** `new_bz2_decoder`: a bzip2 decoder tagged `Bzip`, or `FeatureDisabled`. */
  function NewBz2Decoder<R>(enabled: set<Format>, inp: R): (r: Result<(Source<R>, Format), Error>)
    ensures r.Ok? <==> Bzip in enabled
    ensures r.Err? ==> r.error == FeatureDisabled
    ensures r.Ok? ==> r.value.1 == Bzip && r.value.0.BzDecoding? && r.value.0.inner == inp
  {
    if Bzip in enabled then Ok((BzDecoding(inp), Bzip)) else Err(FeatureDisabled)
  }

  /** `new_lzma_encoder`: an xz encoder whose preset is the level's number
      when the `lzma` feature is built in, `FeatureDisabled` otherwise. */
  function NewLzmaEncoder<W>(enabled: set<Format>, out: W, level: Level): (r: Result<Sink<W>, Error>)
    ensures r.Ok? <==> Lzma in enabled
    ensures r.Err? ==> r.error == FeatureDisabled
    ensures r.Ok? ==> r.value.XzEncoding? && r.value.inner == out && 1 <= r.value.preset <= 9
    ensures r.Ok? ==> r.value.preset == ToU32(level)
  {
    if Lzma in enabled then Ok(XzEncoding(ToU32(level), out)) else Err(FeatureDisabled)
  }

  /** `new_lzma_decoder`: an xz decoder tagged `Lzma`, or `FeatureDisabled`. */
  function NewLzmaDecoder<R>(enabled: set<Format>, inp: R): (r: Result<(Source<R>, Format), Error>)
    ensures r.Ok? <==> Lzma in enabled
    ensures r.Err? ==> r.error == FeatureDisabled
    ensures r.Ok? ==> r.value.1 == Lzma && r.value.0.XzDecoding? && r.value.0.inner == inp
  {
    if Lzma in enabled then Ok((XzDecoding(inp), Lzma)) else Err(FeatureDisabled)
  }
}
