# dca-rs in Dafny

A model of the core of `dca-rs`, a tool that turns an Opus stream in an Ogg
container into a DCA1 file. A DCA1 file holds:

- the four ASCII bytes `DCA1`;
- the length of a JSON header as a 4-byte little-endian `i32`;
- the JSON header;
- the audio frames, each a 2-byte little-endian `i16` length followed by the
  packet bytes.

The model has five modules:

- `Bytes` (`bytes.dfy`): bytes, little-endian unsigned and two's complement
  encodings of fixed width, and the truncating `as i16` cast.
- `Meta` (`metadata.dfy`): a JSON value datatype, the `Metadata` record and
  `Metadata::from_ytdl_output`.
- `Dca` (`dca.dfy`): the header record `DcaMetadata` and its constant
  builders, the byte layout as functions, a reader for that layout (not part
  of the source; it is the inverse the round-trip lemmas are stated against),
  and the class `DcaWrapper`. Its fields are the Rust struct's fields. Its
  methods append to `raw` and set the flags, as the Rust methods do.
- `Convert` (`convert.dfy`): lines 67-83 of `main`. A fresh container gets its
  header (`BuildContainer`). Then the reader is called until it returns end
  of stream or an error (`ForwardPackets`, the `while let` loop). The first
  two packets are dropped and every later one is written as a frame.
- `Wrappers` (`wrappers.dfy`): `Option`.

The packet reader is a sequence of results `Packet(data)`, `EndOfStream`
(`Ok(None)`) and `ReadError` (`Err`). A read past the end of that sequence
gives `EndOfStream`. `serde_json::to_string` is the function-valued parameter
`toJson` of `WriteDcaHeader`.

Where the code does no checking, the model does none either:

- A missing title, artist or source URL makes `info`/`origin` panic on
  `unwrap`. The three fields are therefore a precondition of `WriteDcaHeader`.
- The frame length is cast with `as i16` and not checked. `WriteAudioData`
  models that unchecked write, and `WriteAudioFrame` is a checked variant
  (see "Findings").
- A read error is swallowed by `while let Ok(..)` and ends the loop. It is not
  propagated.
- Writing the header twice, or frames before the header, is not rejected. The
  methods append anyway. `WriteDcaHeader` promises `DcaHeader()` returns the
  JSON only when the buffer was empty, because `dca_header` always slices
  from offset 8.

## Model

| member | source | states |
|---|---|---|
| `Bytes.SignedRoundTrip` | src/dca.rs:122-123 | a two's complement little-endian encoding reads back as the value it encodes (`i32::to_le_bytes` of the header length) |
| `Bytes.UnsignedLEOfValue` | src/dca.rs:123 | each byte string is the encoding of its value, so the encoding is one-to-one |
| `Bytes.WrapI16` | src/dca.rs:106 | `n as i16` is in the `i16` range, is congruent to `n` modulo 2^16, and equals `n` exactly when `n < 32768` |
| `Meta.FromYtdlOutput` | src/metadata.rs:41-111 | `channels` is always 2, `sample_rate` always 48000 and `start_time` always absent; title, track, channel and thumbnail are present exactly when the same-named key holds a string, and are then that string; `source_url` comes from `webpage_url` the same way; artist is `artist`, else `uploader`; date is `release_date`, else `upload_date`; a non-object gives only the constants |
| `Dca.DcaBlock` | src/dca.rs:129-139 | the format version is 1 and the tool is `dca-rs` 1.0.0 |
| `Dca.OpusBlock` | src/dca.rs:141-150 | `voip` mode, variable bitrate, 48000 Hz, 2 channels, 64000 bps, and a frame size of 20 ms at that sample rate |
| `Dca.InfoOf` | src/dca.rs:152-160 | needs title and artist; copies them and leaves album, genre and cover absent |
| `Dca.OriginOf` | src/dca.rs:162-170 | needs the source URL and copies it; source `file`, encoding `Ogg`, and bitrate and channels that agree with the opus block |
| `Dca.ExtraBlock` | src/dca.rs:172-174 | the extra block is always present |
| `Dca.HeaderOf` | src/dca.rs:112-119 | the header has version 1, the fixed opus block, the metadata's title, artist and source URL, and an empty extra block |
| `Dca.Preamble` | src/dca.rs:120-124 | the magic, then 4 bytes that read back as the JSON length, then the JSON: `8 + |json|` bytes in all |
| `Dca.FrameBytes` | src/dca.rs:106-108 | a frame is 2 prefix bytes followed by the payload, unchanged |
| `Dca.PrefixRoundTripIff` | src/dca.rs:106-107 | the 2-byte prefix reads back as the payload length if and only if the length is at most 32767 |
| `Dca.FramePrefixWrapsAt32768` | src/dca.rs:106-107 | a 32768-byte payload gets the prefix `00 80`, which reads back as -32768 |
| `Dca.EncodeFramesLength` | src/dca.rs:105-108 | the frame area is as long as the sum of `2 + |frame|` over the frames |
| `Dca.EncodeFramesAppend` | src/dca.rs:105-108 | writing frames one after another appends their encodings in write order |
| `Dca.EncodeSingleFrame` | src/dca.rs:105-108 | one frame's area is exactly that frame's prefix and payload |
| `Dca.EncodeFramesSnoc` | src/dca.rs:105-108 | a buffer holding some frames, with one more frame appended, holds those frames followed by the new one |
| `Dca.ContainerLayout` | src/dca.rs:120-124 | a container starts with `DCA1`; bytes 4..8 read back as the header length; bytes `8..8+H` are the header; the rest is the frame area, of length the sum of `2 + |frame|` |
| `Dca.TwoFrameExample` | src/dca.rs:105-108 | frames `01 02` and `AA` are laid out as `02 00 01 02 01 00 AA` |
| `Dca.ParseEncodeFrames` | src/dca.rs:105-108 | frames of at most 32767 bytes read back from the frame area exactly and in order |
| `Dca.BuildThenParse` | src/dca.rs:105-126 | a container with a header shorter than 2^31 bytes and frames of at most 32767 bytes reads back as that header and those frames |
| `Dca.DcaWrapper.constructor` | src/dca.rs:70-79 | a fresh wrapper has an empty buffer, `header_size` 0, `offset` 8 and both flags false |
| `Dca.DcaWrapper.Raw` | src/dca.rs:81-83 | returns the whole buffer; once the header is written it is at least `8 + header_size` bytes long |
| `Dca.DcaWrapper.DcaHeader` | src/dca.rs:85-93 | absent until the header is written, then `header_size` bytes from offset 8 |
| `Dca.DcaWrapper.DcaData` | src/dca.rs:95-103 | absent until a frame is written, then everything after `8 + header_size` |
| `Dca.DcaWrapper.WriteAudioData` | src/dca.rs:105-110 | appends exactly the prefix and the payload, and nothing else changes; sets `audio_data_written`; leaves the header size, the header flag and `DcaHeader()` as they were |
| `Dca.DcaWrapper.WriteAudioFrame` | src/dca.rs:105-110 | the checked write: fails with `FrameTooLarge` and changes nothing for payloads over 32767 bytes; otherwise appends like `WriteAudioData`, and the prefix reads back as the payload length; on both paths `DcaHeader()` is unchanged |
| `Dca.DcaWrapper.WriteDcaHeader` | src/dca.rs:112-127 | needs title, artist and source URL; appends the preamble of the serialised header; sets `header_size` to its length and `header_written`; on an empty buffer the result is `8 + header_size` bytes and `DcaHeader()` is the JSON |
| `Convert.ReadWithinStream` | src/main.rs:73-75 | within the stream, the reader gives a packet exactly until the first end of stream or error |
| `Convert.ForwardedStep` | src/main.rs:76-82 | a dropped packet leaves the frames still to come as they were; a forwarded packet becomes the next frame |
| `Convert.StopForwardsNothing` | src/main.rs:73-75 | after an end of stream or an error, no further frame is written |
| `Convert.ForwardedPackets` | src/main.rs:72-83 | packets then a stop: everything after the first `skip` packets is forwarded in order, and the stream ends at the stop |
| `Convert.SkipsTwoThenForwardsInOrder` | src/main.rs:72-83 | `[p0, p1, p2, ..., pn]` then a stop gives exactly the frames `[p2, ..., pn]` |
| `Convert.ShortStreamForwardsNothing` | src/main.rs:72-79 | two packets or fewer give no frames |
| `Convert.ErrorKeepsEarlierFrames` | src/main.rs:73 | a read error keeps the frames before it, is not passed on, and ends the stream, so later packets are never read |
| `Convert.ForwardPackets` | src/main.rs:72-83 | the loop appends one frame per forwarded packet, in order, after what the buffer held; `audio_data_written` becomes true exactly when some packet was forwarded; the header fields stay unchanged; the reader is called once per packet plus once for the stop |
| `Convert.BuildContainer` | src/main.rs:67-83 | the buffer is the header's preamble followed by one frame per forwarded packet, in order; the header is written first; `Raw()`, the bytes written to the output file, is that buffer; `audio_data_written` holds exactly when some packet was forwarded; `DcaHeader()` is the JSON and `DcaData()` the frame area; the reader is called once per packet plus once for the stop |

## Findings

| source | as written | input that shows it | evidently intended | confidence | as-written member | corrected member |
|---|---|---|---|---|---|---|
| src/dca.rs:106 | `audio_data.len() as i16` does not check the length | a packet of 32768 bytes gets the prefix `00 80`, which reads back as -32768 | payloads over 32767 bytes are rejected, so every prefix reads back as its payload's length | high; not executed | `Dca.FramePrefixWrapsAt32768` (and `Dca.PrefixRoundTripIff`) | `Dca.DcaWrapper.WriteAudioFrame` |

`Convert.BuildContainer` calls the unchecked `WriteAudioData`, as `main` does.
So its buffer reads back frame by frame (`Dca.BuildThenParse`) only when every
forwarded packet is at most 32767 bytes.

## Left out

- Command-line parsing (`clap`), launching `ffmpeg` and reading its output, and reading the JSON file and writing the output file: user interface and I/O.
- Ogg page parsing in `ogg::PacketReader`: a foreign library. The reader is a sequence of read results.
- The JSON text that `serde_json::to_string` produces: a foreign serialiser. It is the parameter `toJson`.
- `Dca.DcaWrapper.WriteDcaHeader`: requires the serialised header to be shorter than 2^31 bytes. The `as i32` wrap-around of a longer header is not modelled.
- `Dca.DcaWrapper.WriteDcaHeader`: requires title, artist and source URL to be present, where the source panics on `unwrap`.
- `Dca.DcaWrapper.DcaData`: requires the slice to be in range, where the source panics. That only fails when frames are written before the header and the buffer is shorter than 8 bytes.
- The `duration` field of `Metadata` (`Duration::from_secs_f64`): floating point.
- `into_songbird_metadata`: a field copy into a foreign type.
- The `u8`, `u32` and `u64` widths of the header and metadata numbers: they are `nat`. Every value written there is a small constant.
- `#[tokio::main]`: the program is sequential.
