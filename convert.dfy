/**
 * The conversion loop of the command-line tool: open a container, write its
 * header, then read Ogg packets, drop the first two (the Opus identification
 * and comment headers, section 5 of RFC 7845) and write every later one as a
 * frame, until end of stream or the first read error.
 */
module Convert {
  import opened Bytes
  import opened Wrappers
  import Meta
  import Dca

  /** One result of `PacketReader::read_packet`: `Ok(Some(packet))`, `Ok(None)` or `Err(_)`. */
  datatype ReadResult = Packet(data: seq<byte>) | EndOfStream | ReadError

  /** Number of Opus header packets dropped before audio begins. */
  const HEADER_PACKETS: nat := 2

  /** The reader at `position`: past the end of the results, it keeps reporting end of stream. */
  function ReadPacket(results: seq<ReadResult>, position: nat): ReadResult
  {
    if position < |results| then results[position] else EndOfStream
  }

  /** Number of packets before the first end of stream or read error. */
  function StreamLength(results: seq<ReadResult>): (n: nat)
    ensures n <= |results|
  {
    if results == [] || !results[0].Packet? then 0 else 1 + StreamLength(results[1..])
  }

  /** The results a sequence of packet payloads is read as. */
  function AsPackets(payloads: seq<seq<byte>>): (r: seq<ReadResult>)
    ensures |r| == |payloads|
  {
    if payloads == [] then [] else [Packet(payloads[0])] + AsPackets(payloads[1..])
  }

  /**
   * The payloads the loop writes when `skip` packets are still to be dropped:
   * one per packet, in order, up to the first end of stream or read error.
   */
  function Forwarded(results: seq<ReadResult>, skip: nat): seq<seq<byte>>
  {
    if results == [] then []
    else
      match results[0]
      case ReadError => []
      case EndOfStream => []
      case Packet(data) =>
        if skip > 0 then Forwarded(results[1..], skip - 1) else [data] + Forwarded(results[1..], 0)
  }

  /** Reading at a position not beyond the stream gives a packet exactly when the stream goes on there. */
  lemma {:induction false} ReadWithinStream(results: seq<ReadResult>, position: nat)
    requires position <= StreamLength(results)
    ensures ReadPacket(results, position).Packet? <==> position < StreamLength(results)
  {
    if position > 0 {
      ReadWithinStream(results[1..], position - 1);
    }
  }

  /**
   * Reading a packet at `position`: with frames `written` so far, a dropped
   * packet leaves them as they are and a forwarded one is added after them.
   */
  lemma ForwardedStep(results: seq<ReadResult>, position: nat, skip: nat, written: seq<seq<byte>>)
    requires position < |results| && results[position].Packet?
    ensures skip > 0 ==>
              written + Forwarded(results[position..], skip) ==
              written + Forwarded(results[position + 1..], skip - 1)
    ensures skip == 0 ==>
              written + Forwarded(results[position..], skip) ==
              (written + [results[position].data]) + Forwarded(results[position + 1..], 0)
  {
    assert results[position..][1..] == results[position + 1..];
  }

  /** A result that is not a packet ends what is still to be forwarded. */
  lemma StopForwardsNothing(results: seq<ReadResult>, position: nat, skip: nat)
    requires position <= |results| && !ReadPacket(results, position).Packet?
    ensures Forwarded(results[position..], skip) == []
  {
  }

  /** A name for "the reader stops here": the results are exhausted, or the next one is not a packet. */
  predicate StopsAtHead(tail: seq<ReadResult>)
  {
    tail == [] || !tail[0].Packet?
  }

  /**
   * Packets followed by a stop: everything after the `skip` first packets is
   * forwarded, in order, and nothing from the stop on is looked at.
   */
  lemma {:induction false} ForwardedPackets(payloads: seq<seq<byte>>, skip: nat, tail: seq<ReadResult>)
    requires StopsAtHead(tail)
    ensures Forwarded(AsPackets(payloads) + tail, skip) == if |payloads| <= skip then [] else payloads[skip..]
    ensures StreamLength(AsPackets(payloads) + tail) == |payloads|
  {
    var results := AsPackets(payloads) + tail;
    if payloads == [] {
      assert results == tail;
    } else {
      assert results[0] == Packet(payloads[0]);
      assert results[1..] == AsPackets(payloads[1..]) + tail;
      ForwardedPackets(payloads[1..], if skip > 0 then skip - 1 else 0, tail);
      if skip == 0 {
        assert [payloads[0]] + payloads[1..] == payloads;
      }
    }
  }

  /** `[p0, p1, p2, ..., pn]` then a stop: the frames are exactly `[p2, ..., pn]`. */
  lemma SkipsTwoThenForwardsInOrder(headers: seq<seq<byte>>, audio: seq<seq<byte>>, tail: seq<ReadResult>)
    requires |headers| == HEADER_PACKETS && StopsAtHead(tail)
    ensures Forwarded(AsPackets(headers + audio) + tail, HEADER_PACKETS) == audio
  {
    ForwardedPackets(headers + audio, HEADER_PACKETS, tail);
    assert (headers + audio)[HEADER_PACKETS..] == audio;
  }

  /** A stream of at most two packets gives no frames at all. */
  lemma ShortStreamForwardsNothing(payloads: seq<seq<byte>>, tail: seq<ReadResult>)
    requires |payloads| <= HEADER_PACKETS && StopsAtHead(tail)
    ensures Forwarded(AsPackets(payloads) + tail, HEADER_PACKETS) == []
  {
    ForwardedPackets(payloads, HEADER_PACKETS, tail);
  }

  /**
   * A read error after some audio packets: the frames before it are kept, the
   * error is not passed on, and the packets after it are never read.
   */
  lemma ErrorKeepsEarlierFrames(headers: seq<seq<byte>>, audio: seq<seq<byte>>, later: seq<ReadResult>)
    requires |headers| == HEADER_PACKETS
    ensures Forwarded(AsPackets(headers + audio) + [ReadError] + later, HEADER_PACKETS) == audio
    // the stream ends at the error, so the reader is called |headers| + |audio| + 1 times
    ensures StreamLength(AsPackets(headers + audio) + [ReadError] + later) == |headers| + |audio|
  {
    assert AsPackets(headers + audio) + [ReadError] + later == AsPackets(headers + audio) + ([ReadError] + later);
    SkipsTwoThenForwardsInOrder(headers, audio, [ReadError] + later);
    ForwardedPackets(headers + audio, HEADER_PACKETS, [ReadError] + later);
  }

  /**
   * The `while let` packet loop of the tool's `main`: calls the reader
   * until end of stream or an error, drops the first two packets and writes
   * every later one to `container` as a frame. Returns how many times the
   * reader was called.
   */
  method ForwardPackets(container: Dca.DcaWrapper, results: seq<ReadResult>) returns (readCount: nat)
    requires container.Valid()
    modifies container
    ensures container.Valid()
    // one frame per forwarded packet, in order, appended after what was there
    ensures container.raw == old(container.raw) + Dca.EncodeFrames(Forwarded(results, HEADER_PACKETS))
    ensures container.audioDataWritten <==> old(container.audioDataWritten) || Forwarded(results, HEADER_PACKETS) != []
    ensures container.headerWritten == old(container.headerWritten)
    ensures container.headerSize == old(container.headerSize)
    // the reader is called on every packet and on the result that stops the loop, never after
    ensures readCount == StreamLength(results) + 1
  {
    ghost var start := container.raw;
    ghost var frames := Forwarded(results, HEADER_PACKETS);
    ghost var written: seq<seq<byte>> := [];
    var skip: nat := HEADER_PACKETS;
    readCount := 0;
    assert results[readCount..] == results;
    while true
      invariant container.Valid()
      invariant container.headerWritten == old(container.headerWritten)
      invariant container.headerSize == old(container.headerSize)
      invariant readCount <= StreamLength(results)
      invariant written + Forwarded(results[readCount..], skip) == frames
      invariant container.raw == start + Dca.EncodeFrames(written)
      invariant container.audioDataWritten <==> old(container.audioDataWritten) || written != []
      decreases StreamLength(results) - readCount
    {
      var result := ReadPacket(results, readCount);
      ReadWithinStream(results, readCount);
      if !result.Packet? {
        // `Err` ends `while let Ok(..)`; `Ok(None)` breaks
        StopForwardsNothing(results, readCount, skip);
        assert written + [] == written == frames;
        readCount := readCount + 1;
        break;
      }
      ForwardedStep(results, readCount, skip, written);
      readCount := readCount + 1;
      if skip > 0 {
        skip := skip - 1;
        continue;
      }
      ghost var before := container.raw;
      container.WriteAudioData(result.data);
      Dca.EncodeFramesSnoc(start, written, result.data, before, container.raw);
      written := written + [result.data];
    }
  }

  /**
   * Building the container in the tool's `main`: a fresh container gets its
   * header and then one frame per forwarded packet. `toJson` is the JSON
   * serialiser and `results` are the successive results of the packet reader.
   * `container.Raw()` is what `main` writes to the output file.
   */
  method BuildContainer(metadata: Meta.Metadata, toJson: Dca.DcaMetadata -> seq<byte>, results: seq<ReadResult>)
    returns (container: Dca.DcaWrapper, readCount: nat)
    requires Dca.HasRequiredFields(metadata)
    requires |toJson(Dca.HeaderOf(metadata))| < 0x8000_0000
    ensures fresh(container) && container.Valid() && container.metadata == metadata
    // header first, then every forwarded packet as one frame, in order
    ensures container.Raw() == Dca.Container(toJson(Dca.HeaderOf(metadata)), Forwarded(results, HEADER_PACKETS))
    ensures container.headerWritten && container.headerSize == |toJson(Dca.HeaderOf(metadata))|
    ensures container.audioDataWritten <==> Forwarded(results, HEADER_PACKETS) != []
    ensures container.DcaHeader() == Some(toJson(Dca.HeaderOf(metadata)))
    ensures container.DcaData() ==
              if Forwarded(results, HEADER_PACKETS) == [] then None
              else Some(Dca.EncodeFrames(Forwarded(results, HEADER_PACKETS)))
    ensures readCount == StreamLength(results) + 1
  {
    container := new Dca.DcaWrapper(metadata);
    container.WriteDcaHeader(toJson);
    ghost var json := toJson(Dca.HeaderOf(metadata));
    readCount := ForwardPackets(container, results);
    ghost var frames := Forwarded(results, HEADER_PACKETS);
    Dca.ContainerLayout(json, frames);
    assert container.raw[Dca.OFFSET..Dca.OFFSET + |json|] == json;
  }
}
