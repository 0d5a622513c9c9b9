# niffler format sniffing and dispatch, in Dafny

niffler is a Rust library that opens possibly compressed streams transparently.
It reads the first bytes of a stream, recognises gzip, bzip2, xz/lzma and zstd by
their magic numbers, and hands the stream back without losing a byte: either to
the decoder of the detected codec, or unchanged. On the write side it wraps an
output stream in the encoder for a requested format and level. Four flavours of
entry points exist:

- plain streams (`basic`);
- `Send` streams (`send`);
- seekable streams, which only recognise the 17-byte block-gzip (BGZF) header (`seek`);
- seekable `Send` streams (`seeksend`).

Two historical files (`compression.rs`, `types.rs`) hold an older detector. It
packs the first five bytes big-endian into a `u64` and looks the value up among
the enum's discriminants.

This project models that core and proves what it promises:

- **Classifiers.** Each classifier is a total function with an if-and-only-if
  contract per format. The `Send` classifier tests its arms in a different order
  and is proved equal to the plain one. The legacy bit-packing classifier is
  proved to agree with the current one, with Zstd seen as `No`.
- **Peeking.** A stream is a `ByteStream` object (`Streams`) holding its bytes
  and a read position. A successful peek either returns a fresh stream whose
  remaining content equals the original's (plain and `Send` sniffing), or
  rewinds the same stream to offset 0 (seekable sniffing).
- **Dispatch.** Every format goes to the constructor of that same format. A
  codec left out of the build gives `FeatureDisabled`.
- **Compression levels.** The conversion tables are bounded and monotone.

## Modelling choices

- Bytes are `bv8`. The legacy detector's `u64` is `bv64`, with the source's `|`
  and `<<`. `Place(x, k)` is `u64::from(x) << (8 * k)`, written as `k` shifts by
  eight bits. The value is the same.
- A stream is `data` (what the transport delivers), `failsAtEnd` (whether the
  transport ends in an I/O error rather than end-of-file), `seekable` (whether
  seeking to offset 0 succeeds) and `pos`.
- `Cursor::new(first).chain(rest)` is a fresh stream over `first` followed by the
  rest's remaining bytes. Rust moves the inner stream into the chain, so nothing
  else can observe it afterwards.
- Codecs are uninterpreted. A decoder or encoder is a tag wrapping the stream,
  with the native level the codec library would receive. Cargo features are the
  set `Codecs.enabled`. The zstd constructors are the only enabled ones that can
  fail (their `?` on the zstd library call). That failure is the input
  `Codecs.zstdFails`, reported as `IOError(CodecInit)`.
- The `Send` and seekable-`Send` variants share their formats with `basic` and
  `seek`. They differ in one constructor. The plain bzip2 decoder is bzip2's
  multi-member `MultiBzDecoder` (src/basic/compression.rs:48). The `Send` one is
  the single-member `BzDecoder` (src/send/compression.rs:81). A decoder's
  `multiMember` flag records which kind it is. gzip uses `MultiGzDecoder` in
  both.
- The `get_first_five` of src/compression.rs:68-76 has the same body as that of
  src/utils.rs:8-17. Both are `Utils.GetFirstFive`.
- src/seek/mod.rs:14 calls `compression::get_first_bytes`, which is defined in
  src/utils.rs:19-32. It is modelled as `Utils.GetFirstBytes`.
- The `compression` submodule of `seeksend` is not part of this model. It is
  taken to be src/seek/compression.rs, which is what `seeksend` imports its
  traits from.
- The body of `impl_format!` (src/basic/compression.rs:32-63) is not part of
  this model. It is taken to have the shape of the `Send` constructors in
  src/send/compression.rs:40-119: `Ok` wrapping the codec when the feature is
  on, `FeatureDisabled` otherwise.
- Seekable sniffing rewinds to absolute offset 0 (src/utils.rs:27), not to the
  position the stream had before the peek. The model follows the code. The two
  agree only for streams sniffed at their start.

## Model

| member | source | states |
|---|---|---|
| Streams.ByteStream.ReadExact | src/utils.rs:13 | `read_exact` of n bytes: with n bytes left, returns exactly the next n and advances by n; otherwise consumes everything and fails with end-of-file or the transport's error |
| Streams.ByteStream.SeekToStart | src/utils.rs:27 | `seek(SeekFrom::Start(0))`: on a seekable stream, position 0 and the whole data remaining; otherwise an error and the position unchanged |
| Streams.ByteStream.Chain | src/basic/mod.rs:42-48 | a cursor over the prefix chained before a stream yields the prefix followed by that stream's remaining bytes, and inherits its end behaviour |
| BasicCompression.Bytes2Type | src/basic/compression.rs:22-30 | Gzip iff the bytes start 1f 8b; Bzip iff they start 42 5a; Zstd iff they start 28 b5 2f fd; Lzma iff all five are fd 37 7a 58 5a; No iff none of these holds |
| BasicCompression.XzIsLzma | src/basic/compression.rs:17-20 | `Format::Xz` is `Format::Lzma`, and the xz magic number classifies as `Xz` |
| BasicCompression.MagicsDisjoint | src/basic/compression.rs:22-30 | no five bytes match two of the four magic patterns, so the order of the match arms cannot matter |
| BasicCompression.NativeLevel | src/send/compression.rs:40-146 | flate2 and bzip2 receive min(level number, 9); liblzma and zstd receive the level's own number |
| BasicCompression.NewEncoder | src/basic/compression.rs:32-100 | a disabled codec gives `FeatureDisabled` whatever the arguments; an enabled one succeeds unless zstd's constructor fails; success wraps the output in that codec at its native level; an enabled failure is an I/O error |
| BasicCompression.NewDecoder | src/basic/compression.rs:32-107 | a disabled codec gives `FeatureDisabled`; success wraps the input in that codec's decoder, multi-member for gzip and bzip2, and tags it with that same format; an enabled failure is an I/O error |
| SendCompression.SendBytes2Type | src/send/compression.rs:30-38 | with the Lzma arm tested before the Zstd arm, still equal to the plain classifier on every input |
| SendCompression.NewSendEncoder | src/send/compression.rs:40-146 | each feature-gated encoder: `FeatureDisabled` when off; gz, bz2 and lzma always succeed when on; zstd succeeds unless its library constructor fails |
| SendCompression.NewSendDecoder | src/send/compression.rs:40-146 | each feature-gated decoder: `FeatureDisabled` when off; on success tagged with its own format, multi-member for gzip only; gz, bz2 and lzma always succeed when on |
| SendCompression.SendConstructorsMatchBasic | src/send/compression.rs:40-146 | the `Send` encoders equal the plain ones; the `Send` decoders equal the plain ones except for an enabled bzip2, where `Send` gets the single-member decoder and the plain variant the multi-member one |
| SeekCompression.SeekBytes2Type | src/seek/compression.rs:20-27 | BGzip iff all 17 bytes equal the BGZF header, No iff not |
| SeekCompression.OneByteOffIsNo | src/seek/compression.rs:20-27 | changing any one byte of the BGZF header makes it unrecognised |
| SeekCompression.HeaderIsGzip | src/seek/compression.rs:22 | the first five bytes of the BGZF header classify as Gzip under the five-byte classifier |
| Utils.GetFirstFive | src/utils.rs:8-17 | with five bytes left, returns exactly those and advances by five; with fewer, `FileTooShort`, also when the transport reports an error instead of end-of-file |
| Utils.GetFirstBytes | src/utils.rs:19-32 | fewer than 17 bytes left: `FileTooShort` and no seek; otherwise the 17 bytes, with the stream at absolute offset 0; a failing seek is an `IOError` |
| Basic.Sniff | src/basic/mod.rs:37-50 | fewer than five bytes: `FileTooShort`; otherwise a fresh stream whose remaining content is the original's, tagged with the classification of the first five bytes |
| Basic.GetReader | src/basic/mod.rs:78-92 | too short: `FileTooShort`; `No`: the restored stream unchanged; otherwise `FeatureDisabled` for a disabled codec, success exactly when the codec is enabled and constructs, an `IOError` when an enabled codec (zstd) fails to construct, and on success the decoder of that same format over the restored stream, multi-member for gzip and bzip2 |
| Basic.GetWriter | src/basic/mod.rs:121-133 | `No` passes the output through; never `FileTooShort`; any other format is the encoder of that format at its native level, `FeatureDisabled` when the codec is not built in, or an `IOError` when an enabled codec (zstd) fails to construct |
| Send.SendSniff | src/send/mod.rs:13-26 | as `Basic.Sniff`, and its format equals both the `Send` and the plain classification |
| Send.SendGetReader | src/send/mod.rs:29-43 | as `Basic.GetReader`, through the `Send` constructors, so only a gzip decoder is multi-member |
| Send.SendGetWriter | src/send/mod.rs:46-58 | as `Basic.GetWriter`, through the `Send` constructors |
| Seek.SeekSniff | src/seek/mod.rs:11-20 | too short: `FileTooShort`; unseekable: an I/O error; otherwise the same stream object, rewound to offset 0, tagged with the 17-byte classification |
| Seek.SeekGetReader | src/seek/mod.rs:22-33 | after a successful sniff, a stream with the BGZF header is refused with `FeatureDisabled`; any other comes back as `(stream, No)` |
| Seek.SeekGetWriter | src/seek/mod.rs:35-44 | succeeds iff the format is `No`, returning the output itself; every other format is `FeatureDisabled` |
| SeekSend.SeekSendSniff | src/seeksend/mod.rs:14-23 | as `Seek.SeekSniff` |
| SeekSend.SeekSendGetReader | src/seeksend/mod.rs:26-37 | as `Seek.SeekGetReader` |
| SeekSend.SeekSendGetWriter | src/seeksend/mod.rs:40-49 | succeeds iff the format is `No`, returning the output itself; otherwise `FeatureDisabled` |
| SeekSend.WriterMatchesSeek | src/seeksend/mod.rs:40-49 | equal to the seekable writer, and independent of the level |
| Levels.ToU32 | src/level.rs:35-62 | the k-th declared level converts to k, at most `u32::MAX` |
| Levels.ToI32 | src/level.rs:64-91 | the same number as the `u32` conversion, within `i32` |
| Levels.Flate2 | src/level.rs:94-110 | min(level number, 9), so within 0..9 |
| Levels.Bzip2 | src/level.rs:113-129 | min(level number, 9), so within 0..9 |
| Levels.U32IsDeclarationIndex | src/level.rs:35-62 | converting the k-th level of declaration order gives k |
| Levels.U32StrictlyIncreasing | src/level.rs:35-62 | the `u32` conversion is strictly increasing over declaration order |
| Levels.U32Injective | src/level.rs:35-62 | two levels with the same number are the same level |
| Levels.NativeLevelsMonotone | src/level.rs:94-129 | the flate2 and bzip2 levels never decrease along declaration order |
| Levels.Flate2Saturates | src/level.rs:94-129 | Zero..Nine keep their number, Ten..TwentyOne become 9, and bzip2 gets the same as flate2 |
| LegacyCompression.FromU64 | src/compression.rs:35-45 | a found format has exactly that discriminant; nothing found means no format has it |
| LegacyCompression.FiveBitVal | src/compression.rs:83-86 | the loop's result is the big-endian value of the five bytes |
| LegacyCompression.TwoBitVal | src/compression.rs:93-96 | the loop's result is the big-endian value of the first two bytes |
| LegacyCompression.FiveBytesPacked | src/compression.rs:83-86 | OR-ing byte i in at 8 * (4 - i) bits for all five bytes gives their big-endian value |
| LegacyCompression.TwoBytesPacked | src/compression.rs:93-96 | OR-ing byte i in at 8 * (1 - i) bits for two bytes gives their big-endian value |
| LegacyCompression.FiveByteValue | src/compression.rs:88-91 | the five-byte value is below 2^40, and equals the Lzma discriminant iff the bytes are fd 37 7a 58 5a |
| LegacyCompression.TwoByteValue | src/compression.rs:99-104 | the two-byte value is below 2^16, and equals the Gzip (Bzip) discriminant iff the bytes start 1f 8b (42 5a) |
| LegacyCompression.TwoByteLookup | src/compression.rs:99-104 | a value below 2^16 never looks up as Lzma or No, and looks up as something iff it is 0x1F8B or 0x425A |
| LegacyCompression.Classify | src/compression.rs:83-104 | the two lookups together give the current classifier's answer, with Zstd seen as `No` |
| LegacyCompression.LegacyClassification | src/compression.rs:83-104 | that answer is Lzma iff the bytes are the xz magic number, Gzip iff they start 1f 8b, Bzip iff they start 42 5a, and `No` iff none of these holds (zstd streams included) |
| LegacyCompression.ReadCompression | src/compression.rs:78-105 | fewer than five bytes: `FileTooShort`; otherwise the legacy classification and a fresh stream replaying the five bytes before the rest |
| LegacyCompression.ToU32 | src/compression.rs:160-174 | One..Nine convert to 1..9, the k-th level to k + 1 |
| LegacyCompression.Flate2 | src/compression.rs:176-190 | the flate2 level equals the `u32` number |
| LegacyCompression.Bzip2 | src/compression.rs:192-210 | Fastest iff One, Best iff Nine, Default iff Two..Eight |
| LegacyCompression.ToU32StrictlyIncreasing | src/compression.rs:160-174 | the `u32` conversion is strictly increasing over declaration order |
| LegacyCompression.Bzip2Monotone | src/compression.rs:192-210 | a later level never selects a faster bzip2 setting |
| LegacyCompression.NewBz2Encoder | src/compression.rs:107-133 | succeeds iff `bz2` is built in, wrapping the output at the level's bzip2 setting; otherwise `FeatureDisabled` |
| LegacyCompression.NewBz2Decoder | src/compression.rs:107-133 | succeeds iff `bz2` is built in, tagged `Bzip`; otherwise `FeatureDisabled` |
| LegacyCompression.NewLzmaEncoder | src/compression.rs:135-158 | succeeds iff `lzma` is built in, with the level's number 1..9 as preset; otherwise `FeatureDisabled` |
| LegacyCompression.NewLzmaDecoder | src/compression.rs:135-158 | succeeds iff `lzma` is built in, tagged `Lzma`; otherwise `FeatureDisabled` |
| LegacyTypes.DiscriminantsAreMagic | src/types.rs:29-38 | each discriminant is the big-endian value of its format's magic number, `No` is the next value after Lzma, and each discriminant looks up as its own format |
| LegacyTypes.CompressionLevelTables | src/types.rs:62-114 | the k-th level gives k + 1 as `u32` and as flate2 level; bzip2 gets Fastest for One, Best for Nine and Default in between |

## Left out

- Codec behaviour (flate2, bzip2, liblzma/xz2, zstd) is foreign code. The
  constructors are tags, so no compression round trip is stated except the `No`
  pass-through.
- The `multiMember` flag only records which decoder the source constructs. It
  does not model what a single-member decoder leaves unread of a stream of
  concatenated members.
- Whether the native levels are in range for each library (liblzma presets above
  9, zstd levels above 21) is a property of those libraries and is not checked.
- Which inputs make zstd's constructors fail is not modelled. The failure is the
  input `Codecs.zstdFails`.
- `from_path` and `to_path` in basic, send and seeksend only open files and add
  buffering.
- The `Send` bounds and the `ReadSeek`/`WriteSeek` blanket traits
  (src/seek/compression.rs:5-11) only constrain types.
- Error messages and the payload of `io::Error` are not modelled. An I/O error
  carries only its kind (`IoKind`).
- `read_exact` leaves the stream position unspecified after a failure. The model
  consumes everything that was left.
- `NifflerError` (src/types.rs:40-47) is declared, but no operation in the
  modelled files returns it.
- Streams are single-threaded. Concurrent use of a `Send` stream is not modelled.
