/**
 * The DCA1 container builder (`DcaWrapper`) and the header record it
 * serialises.
 *
 * Layout of a container:
 *   "DCA1" | header length H, 4-byte little-endian i32 | H bytes of JSON |
 *   frames, each a 2-byte little-endian i16 length L followed by L bytes.
 */
module Dca {
  import opened Wrappers
  import opened Bytes
  import Meta

  /** `DCA_MAGIC_BYTES`, the ASCII bytes of "DCA1". */
  const MAGIC: seq<byte> := [0x44, 0x43, 0x41, 0x31]
  /** `HEADER_LENGTH_BYTES`. */
  const HEADER_LENGTH_BYTES: nat := I32_BYTES
  /** Where the JSON header starts: after the magic and the header length. */
  const OFFSET: nat := |MAGIC| + HEADER_LENGTH_BYTES
  /** The largest payload whose length the 2-byte signed prefix holds. */
  const MAX_FRAME_LEN: nat := 0x7FFF

  // ---------------------------------------------------------------------------
  // The header record (`DcaMetadata` and its parts)

  datatype Tool = Tool(name: string, version: string, url: string, author: string)
  datatype DcaInfo = DcaInfo(version: nat, tool: Tool)
  datatype Opus = Opus(mode: string, sampleRate: nat, frameSize: nat, abr: nat, vbr: bool, channels: nat)
  datatype Info = Info(
    title: Option<string>, artist: Option<string>,
    album: Option<string>, genre: Option<string>, cover: Option<string>)
  datatype Origin = Origin(
    source: Option<string>, abr: Option<nat>, channels: Option<nat>,
    encoding: Option<string>, url: Option<string>)
  datatype Extra = Extra
  datatype DcaMetadata = DcaMetadata(
    dca: DcaInfo, opus: Opus, info: Option<Info>, origin: Option<Origin>, extra: Option<Extra>)

  /** `DcaWrapper::dca`: format version 1 and the writing tool's identity. */
  function DcaBlock(): (d: DcaInfo)
    ensures d.version == 1
    ensures d.tool.name == "dca-rs" && d.tool.version == "1.0.0"
  {
    DcaInfo(1, Tool("dca-rs", "1.0.0", "https://github.com/Forte-NaoP/dca-rs", "Forte-NaoP"))
  }

  /** `DcaWrapper::opus`: the fixed codec profile. */
  function OpusBlock(): (o: Opus)
    ensures o.mode == "voip" && o.vbr
    ensures o.sampleRate == Meta.SAMPLE_RATE && o.channels == 2 && o.abr == 64000
    // a frame of 960 samples at 48 kHz lasts 20 ms
    ensures o.frameSize * 50 == o.sampleRate
  {
    Opus("voip", 48000, 960, 64000, true, 2)
  }

  /** What `info` and `origin` unwrap: without these three fields the header cannot be built. */
  predicate HasRequiredFields(m: Meta.Metadata)
  {
    m.title.Some? && m.artist.Some? && m.sourceUrl.Some?
  }

  /** `DcaWrapper::info`: title and artist copied from the metadata, nothing else. */
  function InfoOf(m: Meta.Metadata): (i: Option<Info>)
    requires m.title.Some? && m.artist.Some?
    ensures i.Some? && i.value.title == m.title && i.value.artist == m.artist
    ensures i.value.album == None && i.value.genre == None && i.value.cover == None
  {
    Some(Info(Some(m.title.value), Some(m.artist.value), None, None, None))
  }

  /** `DcaWrapper::origin`: a local Ogg file at 64 kbps stereo, with the metadata's source URL. */
  function OriginOf(m: Meta.Metadata): (o: Option<Origin>)
    requires m.sourceUrl.Some?
    ensures o.Some? && o.value.url == m.sourceUrl
    ensures o.value.source == Some("file") && o.value.encoding == Some("Ogg")
    ensures o.value.abr == Some(OpusBlock().abr) && o.value.channels == Some(OpusBlock().channels)
  {
    Some(Origin(Some("file"), Some(64000), Some(2), Some("Ogg"), Some(m.sourceUrl.value)))
  }

  /** `DcaWrapper::extra`: always present, always empty. */
  function ExtraBlock(): (e: Option<Extra>)
    ensures e.Some?
  {
    Some(Extra)
  }

  /** The header record `write_dca_header` builds from the metadata. */
  function HeaderOf(m: Meta.Metadata): (h: DcaMetadata)
    requires HasRequiredFields(m)
    ensures h.dca.version == 1 && h.opus == OpusBlock() && h.extra == Some(Extra)
    ensures h.info.Some? && h.info.value.title == m.title && h.info.value.artist == m.artist
    ensures h.origin.Some? && h.origin.value.url == m.sourceUrl
  {
    DcaMetadata(DcaBlock(), OpusBlock(), InfoOf(m), OriginOf(m), ExtraBlock())
  }

  // ---------------------------------------------------------------------------
  // The byte layout

  /** The magic, the 4-byte header length and the JSON header, as `write_dca_header` appends them. */
  function Preamble(json: seq<byte>): (r: seq<byte>)
    requires |json| < 0x8000_0000
    ensures |r| == OFFSET + |json|
    ensures r[..4] == MAGIC
    ensures SignedValueLE(r[4..OFFSET]) == |json|
    ensures r[OFFSET..] == json
  {
    WidthConstants();
    SignedRoundTrip(|json|, I32_BYTES);
    MAGIC + SignedLE(|json|, I32_BYTES) + json
  }

  /** The length prefix `write_audio_data` writes: `(len as i16).to_le_bytes()`. */
  function FramePrefix(len: nat): (p: seq<byte>)
    ensures |p| == I16_BYTES
  {
    SignedLE(WrapI16(len), I16_BYTES)
  }

  /** One frame as `write_audio_data` appends it: the length prefix, then the payload. */
  function FrameBytes(payload: seq<byte>): (r: seq<byte>)
    ensures |r| == I16_BYTES + |payload|
    ensures r[I16_BYTES..] == payload
  {
    FramePrefix(|payload|) + payload
  }

  /** The frames one after another, in write order. */
  function EncodeFrames(frames: seq<seq<byte>>): seq<byte>
  {
    if frames == [] then [] else FrameBytes(frames[0]) + EncodeFrames(frames[1..])
  }

  /** A whole container: the preamble followed by the frames. */
  function Container(json: seq<byte>, frames: seq<seq<byte>>): seq<byte>
    requires |json| < 0x8000_0000
  {
    Preamble(json) + EncodeFrames(frames)
  }

  /** The sum of `2 + |frame|` over all frames. */
  function TotalFrameBytes(frames: seq<seq<byte>>): nat
  {
    if frames == [] then 0 else I16_BYTES + |frames[0]| + TotalFrameBytes(frames[1..])
  }

  predicate AllFit(frames: seq<seq<byte>>)
  {
    forall i :: 0 <= i < |frames| ==> |frames[i]| <= MAX_FRAME_LEN
  }

  // ---------------------------------------------------------------------------
  // A reader for the layout, the inverse the round-trip lemmas are stated against

  /** Splits a frame area back into its payloads; None if it is not a well-formed frame sequence. */
  function ParseFrames(bs: seq<byte>): Option<seq<seq<byte>>>
    decreases |bs|
  {
    if bs == [] then Some([])
    else if |bs| < I16_BYTES then None
    else
      var len := SignedValueLE(bs[..I16_BYTES]);
      if len < 0 || |bs| < I16_BYTES + len then None
      else
        match ParseFrames(bs[I16_BYTES + len..])
        case None => None
        case Some(rest) => Some([bs[I16_BYTES..I16_BYTES + len]] + rest)
  }

  /** Splits a container into its JSON header and its frames; None if it is not well formed. */
  function ParseContainer(bs: seq<byte>): Option<(seq<byte>, seq<seq<byte>>)>
  {
    if |bs| < OFFSET || bs[..4] != MAGIC then None
    else
      var len := SignedValueLE(bs[4..OFFSET]);
      if len < 0 || |bs| < OFFSET + len then None
      else
        match ParseFrames(bs[OFFSET + len..])
        case None => None
        case Some(frames) => Some((bs[OFFSET..OFFSET + len], frames))
  }

  // ---------------------------------------------------------------------------
  // Properties of the layout

  /** The length prefix reads back as the payload length exactly when the length fits 15 bits. */
  lemma PrefixRoundTripIff(len: nat)
    ensures SignedValueLE(FramePrefix(len)) == len <==> len <= MAX_FRAME_LEN
  {
    SignedRoundTrip(WrapI16(len), I16_BYTES);
  }

  /** As written, a 32768-byte payload gets the prefix 00 80, which reads back as -32768. */
  lemma FramePrefixWrapsAt32768()
    ensures FramePrefix(32768) == [0x00, 0x80]
    ensures SignedValueLE(FramePrefix(32768)) == -32768
  {
    WidthConstants();
    assert WrapI16(32768) == -32768;
    SignedRoundTrip(-32768, I16_BYTES);
  }

  /** A buffer holding `start` and `frames`, with one more frame written after them. */
  lemma EncodeFramesSnoc(start: seq<byte>, frames: seq<seq<byte>>, payload: seq<byte>, before: seq<byte>, after: seq<byte>)
    requires before == start + EncodeFrames(frames) && after == before + FrameBytes(payload)
    ensures after == start + EncodeFrames(frames + [payload])
  {
    EncodeFramesAppend(frames, [payload]);
    EncodeSingleFrame(payload);
    AppendAssociates(start, EncodeFrames(frames), FrameBytes(payload));
  }

  /** A single frame's area is that frame's bytes. */
  lemma EncodeSingleFrame(payload: seq<byte>)
    ensures EncodeFrames([payload]) == FrameBytes(payload)
  {
    assert [payload][1..] == [];
    assert EncodeFrames([payload]) == FrameBytes(payload) + EncodeFrames([]);
  }

  /** The frame area is exactly as long as the sum of `2 + |frame|`. */
  lemma {:induction false} EncodeFramesLength(frames: seq<seq<byte>>)
    ensures |EncodeFrames(frames)| == TotalFrameBytes(frames)
  {
    if frames != [] {
      EncodeFramesLength(frames[1..]);
    }
  }

  /** Appending frames one by one builds the concatenation of their encodings. */
  lemma {:induction false} EncodeFramesAppend(frames: seq<seq<byte>>, more: seq<seq<byte>>)
    ensures EncodeFrames(frames + more) == EncodeFrames(frames) + EncodeFrames(more)
  {
    if frames == [] {
      assert frames + more == more;
    } else {
      assert (frames + more)[1..] == frames[1..] + more;
      EncodeFramesAppend(frames[1..], more);
    }
  }

  /**
   * Where everything sits in a container: the magic, a length field that
   * reads back as the header length, the header, and a frame area as long as
   * the sum of `2 + |frame|`.
   */
  lemma ContainerLayout(json: seq<byte>, frames: seq<seq<byte>>)
    requires |json| < 0x8000_0000
    ensures |Container(json, frames)| == OFFSET + |json| + TotalFrameBytes(frames)
    ensures Container(json, frames)[..4] == MAGIC
    ensures SignedValueLE(Container(json, frames)[4..OFFSET]) == |json|
    ensures Container(json, frames)[OFFSET..OFFSET + |json|] == json
    ensures Container(json, frames)[OFFSET + |json|..] == EncodeFrames(frames)
  {
    var c := Container(json, frames);
    var p := Preamble(json);
    assert c[..4] == p[..4];
    assert c[4..OFFSET] == p[4..OFFSET];
    assert c[OFFSET..OFFSET + |json|] == json;
    EncodeFramesLength(frames);
  }

  /** Two frames, `01 02` and `AA`, are laid out as `02 00 01 02` and `01 00 AA`. */
  lemma TwoFrameExample()
    ensures EncodeFrames([[0x01, 0x02], [0xAA]]) == [0x02, 0x00, 0x01, 0x02, 0x01, 0x00, 0xAA]
  {
    WidthConstants();
    assert FramePrefix(2) == [0x02, 0x00];
    assert FramePrefix(1) == [0x01, 0x00];
  }

  /** Frames whose lengths fit the prefix read back exactly, in order. */
  lemma {:induction false} ParseEncodeFrames(frames: seq<seq<byte>>)
    requires AllFit(frames)
    ensures ParseFrames(EncodeFrames(frames)) == Some(frames)
  {
    if frames != [] {
      var f := frames[0];
      var bs := EncodeFrames(frames);
      var tail := EncodeFrames(frames[1..]);
      assert bs == FramePrefix(|f|) + f + tail;
      assert bs[..I16_BYTES] == FramePrefix(|f|);
      PrefixRoundTripIff(|f|);
      assert bs[I16_BYTES + |f|..] == tail;
      assert bs[I16_BYTES..I16_BYTES + |f|] == f;
      ParseEncodeFrames(frames[1..]);
      assert [f] + frames[1..] == frames;
    }
  }

  /** A container reads back as its header and its frames. */
  lemma BuildThenParse(json: seq<byte>, frames: seq<seq<byte>>)
    requires |json| < 0x8000_0000 && AllFit(frames)
    ensures ParseContainer(Container(json, frames)) == Some((json, frames))
  {
    var bs := Container(json, frames);
    var p := Preamble(json);
    assert bs[..4] == p[..4];
    assert bs[4..OFFSET] == p[4..OFFSET];
    assert bs[OFFSET..OFFSET + |json|] == json;
    assert bs[OFFSET + |json|..] == EncodeFrames(frames);
    ParseEncodeFrames(frames);
  }

  // ---------------------------------------------------------------------------
  // The builder

  /** The result of the length-checked frame write. */
  datatype WriteOutcome = Written | FrameTooLarge(length: nat)

  /** `DcaWrapper`: an append-only byte buffer with progress flags. */
  class DcaWrapper {
    const metadata: Meta.Metadata
    var raw: seq<byte>
    var headerSize: int
    const offset: nat
    var headerWritten: bool
    var audioDataWritten: bool

    ghost predicate Valid()
      reads this
    {
      offset == OFFSET &&
      0 <= headerSize < 0x8000_0000 &&
      (!headerWritten ==> headerSize == 0) &&
      (headerWritten ==> offset + headerSize <= |raw|)
    }

    /** `DcaWrapper::new`. */
    constructor (metadata: Meta.Metadata)
      ensures Valid()
      ensures this.metadata == metadata
      ensures raw == [] && headerSize == 0 && offset == 8
      ensures !headerWritten && !audioDataWritten
    {
      this.metadata := metadata;
      raw := [];
      headerSize := 0;
      offset := |MAGIC| + HEADER_LENGTH_BYTES;
      headerWritten := false;
      audioDataWritten := false;
    }

    /** `DcaWrapper::raw`: a copy of the whole buffer, header and frames alike. */
    function Raw(): (r: seq<byte>)
      reads this
      ensures r == raw
      ensures Valid() && headerWritten ==> OFFSET + headerSize <= |r|
    {
      raw
    }

    /** `DcaWrapper::dca_header`: the JSON header once it is written. */
    function DcaHeader(): (r: Option<seq<byte>>)
      reads this
      requires Valid()
      ensures r.Some? <==> headerWritten
      ensures r.Some? ==> |r.value| == headerSize
    {
      if headerWritten then Some(raw[offset..offset + headerSize]) else None
    }

    /**
     * `DcaWrapper::dca_data`: everything after the header once a frame is
     * written. The slice panics when the buffer is shorter than the header's
     * end, which can only happen when frames are written before the header.
     */
    function DcaData(): (r: Option<seq<byte>>)
      reads this
      requires Valid()
      requires audioDataWritten ==> offset + headerSize <= |raw|
      ensures r.Some? <==> audioDataWritten
      ensures r.Some? ==> |r.value| == |raw| - OFFSET - headerSize
    {
      if audioDataWritten then Some(raw[offset + headerSize..]) else None
    }

    /** `DcaWrapper::write_audio_data`, as written: the length is cast with `as i16` unchecked. */
    method WriteAudioData(audioData: seq<byte>)
      requires Valid()
      modifies this
      ensures Valid()
      ensures raw == old(raw) + FrameBytes(audioData)
      ensures audioDataWritten
      ensures headerSize == old(headerSize) && headerWritten == old(headerWritten)
      ensures DcaHeader() == old(DcaHeader())
    {
      ghost var before := raw;
      var dataLen := WrapI16(|audioData|);
      raw := raw + SignedLE(dataLen, I16_BYTES);
      raw := raw + audioData;
      audioDataWritten := true;
      assert headerWritten ==> raw[offset..offset + headerSize] == before[offset..offset + headerSize];
    }

    /** The frame write with the bounds check the 2-byte length field needs. */
    method WriteAudioFrame(audioData: seq<byte>) returns (outcome: WriteOutcome)
      requires Valid()
      modifies this
      ensures Valid()
      ensures outcome == Written <==> |audioData| <= MAX_FRAME_LEN
      ensures outcome == Written ==>
                raw == old(raw) + FrameBytes(audioData) && audioDataWritten &&
                SignedValueLE(raw[|old(raw)|..|old(raw)| + I16_BYTES]) == |audioData|
      ensures outcome != Written ==>
                outcome == FrameTooLarge(|audioData|) &&
                raw == old(raw) && audioDataWritten == old(audioDataWritten)
      ensures headerSize == old(headerSize) && headerWritten == old(headerWritten)
      ensures DcaHeader() == old(DcaHeader())
    {
      if |audioData| > MAX_FRAME_LEN {
        return FrameTooLarge(|audioData|);
      }
      ghost var before := raw;
      WriteAudioData(audioData);
      PrefixRoundTripIff(|audioData|);
      assert raw[|before|..|before| + I16_BYTES] == FramePrefix(|audioData|);
      outcome := Written;
    }

    /**
     * `DcaWrapper::write_dca_header`: appends the magic, the header length and
     * the header serialised by `toJson` (`serde_json::to_string`).
     */
    method WriteDcaHeader(toJson: DcaMetadata -> seq<byte>)
      requires Valid()
      requires HasRequiredFields(metadata)
      requires |toJson(HeaderOf(metadata))| < 0x8000_0000
      modifies this
      ensures Valid()
      ensures raw == old(raw) + Preamble(toJson(HeaderOf(metadata)))
      ensures headerWritten && headerSize == |toJson(HeaderOf(metadata))|
      ensures audioDataWritten == old(audioDataWritten)
      // dca_header slices from the fixed offset 8, so it finds the JSON only
      // when the header went into an empty buffer
      ensures old(raw) == [] ==> |raw| == OFFSET + headerSize && DcaHeader() == Some(toJson(HeaderOf(metadata)))
    {
      var header := HeaderOf(metadata);
      ghost var start := raw;
      raw := raw + MAGIC;
      var json := toJson(header);
      var headerLen := |json|;
      WidthConstants();
      var lengthBytes := SignedLE(headerLen, I32_BYTES);
      raw := raw + lengthBytes;
      raw := raw + json;
      headerWritten := true;
      headerSize := headerLen;
      AppendAssociates(start, MAGIC, lengthBytes);
      AppendAssociates(start, MAGIC + lengthBytes, json);
      assert raw == start + Preamble(json);
      assert start == [] ==> raw[offset..offset + headerSize] == raw[OFFSET..];
    }
  }
}
