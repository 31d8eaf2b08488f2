/**
  The host side of the link: one pass of the receive loop, which reads a
  4-byte header and a sizeof(Result)-byte payload and either drops the frame
  or publishes it, and the single-slot mailbox the application takes packets
  from. The loop's two serial reads are parameters: each is the count that
  `read_serial` returned together with the destination buffer as it stands
  after the call (stale bytes included when the read failed).
 */
module TofisHostApi {
  import opened TofisData
  import opened StructImage
  import CheckSum
  import HostChecksum
  import TofisUart

  /** The C `int` that `read_serial` returns. */
  type CInt = x: int | -0x8000_0000 <= x < 0x8000_0000

  /** One `read_serial` call: its return value and the buffer it was given, afterwards. */
  datatype SerialRead = SerialRead(count: CInt, bytes: seq<byte>)

  /** Why a frame is dropped; each is one `continue` of the receive loop. */
  datatype FrameError = ShortHeader | BadMarkers | ShortPayload | ChecksumMismatch

  datatype Verdict = Dropped(error: FrameError) | Accepted(packet: Packet)

  /** Well-formed reads: the header buffer holds 4 bytes, the payload buffer sizeof(Result). */
  predicate ReadShapes(header: SerialRead, payload: SerialRead)
  {
    |header.bytes| == HeaderSize && |payload.bytes| == ResultSize
  }

  /**
    The decision one pass of the receive loop takes, with the payload length
    compared as a signed count, so that a failed read (-1) is a short read.
   */
  function FrameVerdict(header: SerialRead, payload: SerialRead): Verdict
    requires ReadShapes(header, payload)
  {
    if header.count < HeaderSize then Dropped(ShortHeader)
    else if header.bytes[0] != StartByte || header.bytes[3] != EndByte then Dropped(BadMarkers)
    else if payload.count < ResultSize then Dropped(ShortPayload)
    else if CheckSum.Xor(payload.bytes) != header.bytes[2] then Dropped(ChecksumMismatch)
    else Accepted(Packet(header.bytes[0], header.bytes[1], header.bytes[2], header.bytes[3], FromImage(payload.bytes)))
  }

  /** A packet as the device's little-endian sender produces it. */
  predicate WellFormed(p: Packet)
  {
    p.startByte == StartByte && p.endByte == EndByte && p.checksum == CheckSum.Xor(Image(p.data))
  }

  /** The two reads that deliver the image of `p` whole. */
  function HeaderRead(p: Packet): (h: SerialRead)
    ensures |h.bytes| == HeaderSize && h.count == HeaderSize
  {
    SerialRead(HeaderSize, [p.startByte, p.resolution, p.checksum, p.endByte])
  }

  /** A complete payload read of the given bytes. */
  function PayloadRead(b: seq<byte>): (r: SerialRead)
    requires |b| == ResultSize
    ensures r.count == ResultSize && r.bytes == b
  {
    SerialRead(ResultSize, b)
  }

  /**
    Every well-formed packet, the one `SendData_Le` sends in particular,
    passes all of the host's checks and decodes to itself: the device's
    result arrives unchanged.
   */
  lemma WellFormedPacketAccepted(p: Packet)
    requires WellFormed(p)
    ensures FrameVerdict(HeaderRead(p), PayloadRead(Image(p.data))) == Accepted(p)
    ensures HeaderRead(p).bytes + PayloadRead(Image(p.data)).bytes == PacketImage(p)
  {
    ImageRoundTrip(p.data);
  }

  /**
    Conversely, whatever the host accepts is the image of a well-formed
    packet: both reads were complete and the header and payload bytes are,
    back to back, exactly the image of the packet it publishes.
   */
  lemma AcceptedIsPacketImage(header: SerialRead, payload: SerialRead)
    requires ReadShapes(header, payload) && FrameVerdict(header, payload).Accepted?
    ensures header.count >= HeaderSize && payload.count >= ResultSize
    ensures WellFormed(FrameVerdict(header, payload).packet)
    ensures header.bytes + payload.bytes == PacketImage(FrameVerdict(header, payload).packet)
  {
    FromImageRoundTrip(payload.bytes);
    assert header.bytes == [header.bytes[0], header.bytes[1], header.bytes[2], header.bytes[3]];
  }

  /** A payload with any one byte changed in transit is dropped as a checksum mismatch. */
  lemma SingleCorruptionDropped(p: Packet, i: nat, x: byte)
    requires WellFormed(p) && i < ResultSize && x != Image(p.data)[i]
    ensures FrameVerdict(HeaderRead(p), PayloadRead(Image(p.data)[i := x])) == Dropped(ChecksumMismatch)
  {
    CheckSum.SingleByteChangeDetected(Image(p.data), i, x);
  }

  /** Bytes i and j of b, both flipped by the same delta. */
  function PairedCorruption(b: seq<byte>, i: nat, j: nat, delta: byte): (c: seq<byte>)
    requires i < |b| && j < |b|
    ensures |c| == |b|
  {
    b[i := b[i] ^ delta][j := b[j] ^ delta]
  }

  /**
    The blind spot: two payload bytes flipped by the same nonzero delta pass
    every check, and the host publishes a result other than the one sent
    under the sender's checksum.
   */
  lemma PairedCorruptionAccepted(p: Packet, i: nat, j: nat, delta: byte)
    requires WellFormed(p) && i < ResultSize && j < ResultSize && i != j && delta != 0
    ensures FrameVerdict(HeaderRead(p), PayloadRead(PairedCorruption(Image(p.data), i, j, delta)))
            == Accepted(p.(data := FromImage(PairedCorruption(Image(p.data), i, j, delta))))
    ensures FromImage(PairedCorruption(Image(p.data), i, j, delta)) != p.data
  {
    var b := Image(p.data);
    var c := PairedCorruption(b, i, j, delta);
    PairedCorruptionKeepsChecksum(b, i, j, delta);
    MatchingPayloadAccepted(p, c);
    PairedCorruptionChanges(b, i, j, delta);
    DistinctImagesDecodeApart(b, c);
    ImageRoundTrip(p.data);
  }

  lemma PairedCorruptionChanges(b: seq<byte>, i: nat, j: nat, delta: byte)
    requires i < |b| && j < |b| && i != j && delta != 0
    ensures PairedCorruption(b, i, j, delta) != b
  {
    assert PairedCorruption(b, i, j, delta)[i] == b[i] ^ delta;
  }

  lemma PairedCorruptionKeepsChecksum(b: seq<byte>, i: nat, j: nat, delta: byte)
    requires i < |b| && j < |b| && i != j
    ensures CheckSum.Xor(PairedCorruption(b, i, j, delta)) == CheckSum.Xor(b)
  {
    CheckSum.PairedDeltaCancels(b, i, j, delta);
  }

  /** Under the header of a packet, any payload matching its checksum is published as read. */
  lemma MatchingPayloadAccepted(p: Packet, c: seq<byte>)
    requires p.startByte == StartByte && p.endByte == EndByte
    requires |c| == ResultSize && CheckSum.Xor(c) == p.checksum
    ensures FrameVerdict(HeaderRead(p), PayloadRead(c)) == Accepted(p.(data := FromImage(c)))
  {
  }

  /** Different payload images decode to different results. */
  lemma DistinctImagesDecodeApart(b: seq<byte>, c: seq<byte>)
    requires |b| == ResultSize && |c| == ResultSize && b != c
    ensures FromImage(b) != FromImage(c)
  {
    FromImageRoundTrip(b);
    FromImageRoundTrip(c);
  }

  // ---- The payload-length comparison as written ----

  /** The conversion of an `int` to `size_t` (64 bits) that the comparison applies. */
  function AsSize(n: CInt): (m: nat)
    ensures m < 0x1_0000_0000_0000_0000
    ensures n >= 0 ==> m == n
    ensures n < 0 ==> m == n + 0x1_0000_0000_0000_0000
  {
    n % 0x1_0000_0000_0000_0000
  }

  /**
    The decision as the loop is written: `bytes_read < data_size` compares an
    `int` with a `size_t`, so the count is converted to unsigned first.
   */
  function FrameVerdictAsWritten(header: SerialRead, payload: SerialRead): Verdict
    requires ReadShapes(header, payload)
  {
    if header.count < HeaderSize then Dropped(ShortHeader)
    else if header.bytes[0] != StartByte || header.bytes[3] != EndByte then Dropped(BadMarkers)
    else if AsSize(payload.count) < ResultSize then Dropped(ShortPayload)
    else if CheckSum.Xor(payload.bytes) != header.bytes[2] then Dropped(ChecksumMismatch)
    else Accepted(Packet(header.bytes[0], header.bytes[1], header.bytes[2], header.bytes[3], FromImage(payload.bytes)))
  }

  /**
    A payload read that fails (`read_serial` returns -1) after a good header
    is accepted as written whenever the uninitialised buffer happens to match
    the header's checksum, and the stale bytes are published as a result;
    the signed comparison drops it.
   */
  lemma ReadErrorAcceptedAsWritten(h: seq<byte>, stale: seq<byte>)
    requires |h| == HeaderSize && h[0] == StartByte && h[3] == EndByte
    requires |stale| == ResultSize && CheckSum.Xor(stale) == h[2]
    ensures FrameVerdictAsWritten(SerialRead(HeaderSize, h), SerialRead(-1, stale))
            == Accepted(Packet(h[0], h[1], h[2], h[3], FromImage(stale)))
    ensures FrameVerdict(SerialRead(HeaderSize, h), SerialRead(-1, stale)) == Dropped(ShortPayload)
  {
  }

  /**
    With the signed comparison every payload read short of sizeof(Result),
    a failed one (a negative count) included, drops the frame.
   */
  lemma ShortReadsDropped(header: SerialRead, payload: SerialRead)
    requires ReadShapes(header, payload) && payload.count < ResultSize
    ensures !FrameVerdict(header, payload).Accepted?
    ensures header.count >= HeaderSize && header.bytes[0] == StartByte && header.bytes[3] == EndByte ==>
              FrameVerdict(header, payload) == Dropped(ShortPayload)
  {
  }

  /** The two decisions differ only on reads that report an error. */
  lemma VerdictsAgreeOnNonNegativeCounts(header: SerialRead, payload: SerialRead)
    requires ReadShapes(header, payload)
    ensures payload.count >= 0 ==> FrameVerdictAsWritten(header, payload) == FrameVerdict(header, payload)
    ensures FrameVerdictAsWritten(header, payload) != FrameVerdict(header, payload) ==>
              payload.count < 0 && FrameVerdict(header, payload) == Dropped(ShortPayload)
  {
  }

  /**
    The receive side: the mailbox (`latest_packet` and `data_ready`) and the
    loop body that fills it.
   */
  class HostApi {
    var latestPacket: Packet
    var dataReady: bool

    constructor ()
      ensures latestPacket == ZeroPacket && !dataReady
    {
      latestPacket := ZeroPacket;
      dataReady := false;
    }

    /** Publishing overwrites the slot, whether or not the last packet was taken. */
    method Publish(p: Packet)
      modifies this
      ensures latestPacket == p && dataReady
    {
      latestPacket := p;
      dataReady := true;
    }

    /**
      One pass of the receive loop over the reads it made: returns the
      decision and publishes the packet exactly when it is accepted.
     */
    method ReceiveOnce(header: SerialRead, payload: SerialRead) returns (verdict: Verdict)
      requires ReadShapes(header, payload)
      modifies this
      ensures verdict == FrameVerdict(header, payload)
      ensures verdict.Accepted? ==> latestPacket == verdict.packet && dataReady
      ensures verdict.Dropped? ==> latestPacket == old(latestPacket) && dataReady == old(dataReady)
    {
      if header.count < HeaderSize {
        return Dropped(ShortHeader);
      }
      var h := header.bytes;
      if h[0] != StartByte || h[3] != EndByte {
        return Dropped(BadMarkers);
      }
      var resolution := h[1];
      var receivedChecksum := h[2];
      if payload.count < ResultSize {
        return Dropped(ShortPayload);
      }
      var calculatedChecksum := HostChecksum.CalculateChecksum(payload.bytes, ResultSize);
      assert CheckSum.Visited(payload.bytes, ResultSize) == payload.bytes;
      if calculatedChecksum != receivedChecksum {
        return Dropped(ChecksumMismatch);
      }
      var result := FromImage(payload.bytes);
      var packet := Packet(h[0], resolution, receivedChecksum, h[3], result);
      Publish(packet);
      verdict := Accepted(packet);
    }

    /**
      Takes the packet in the slot and clears the flag; always returns 0.
      The wait for the flag is the precondition.
     */
    method WaitForData() returns (rc: int, packet: Packet)
      requires dataReady
      modifies this
      ensures rc == 0 && packet == old(latestPacket)
      ensures !dataReady && latestPacket == old(latestPacket)
    {
      packet := latestPacket;
      dataReady := false;
      rc := 0;
    }
  }

  /** Two publishes before one take: the taker sees only the second packet. */
  method LastPublishWins(first: Packet, second: Packet) returns (taken: Packet, rc: int)
    ensures taken == second && rc == 0
  {
    var api := new HostApi();
    api.Publish(first);
    api.Publish(second);
    rc, taken := api.WaitForData();
  }

  /** A well-formed frame received into a fresh mailbox is the packet the application takes. */
  method ReceiveThenTake(p: Packet) returns (taken: Packet)
    requires WellFormed(p)
    ensures taken == p
  {
    var api := new HostApi();
    WellFormedPacketAccepted(p);
    var verdict := api.ReceiveOnce(HeaderRead(p), PayloadRead(Image(p.data)));
    var rc;
    rc, taken := api.WaitForData();
  }

  /**
    The little-endian link end to end: the bytes `SendData_Le` transmits,
    read by the host as a header and a payload, are accepted, and the packet
    the application takes carries the device's result and resolution.
   */
  method LittleEndianLink(device: TofisUart.SlaveDevice, resolution: byte, result: Result)
    returns (verdict: Verdict, taken: Packet)
    modifies device
    ensures verdict.Accepted? && taken == verdict.packet
    ensures taken.data == result && taken.resolution == resolution
  {
    var sent := device.SendDataLe(resolution, result);
    var p := Packet(StartByte, resolution, CheckSum.Xor(Image(result)), EndByte, result);
    assert sent[..HeaderSize] == HeaderRead(p).bytes && sent[HeaderSize..] == Image(result);
    WellFormedPacketAccepted(p);
    var api := new HostApi();
    verdict := api.ReceiveOnce(SerialRead(HeaderSize, sent[..HeaderSize]), SerialRead(ResultSize, sent[HeaderSize..]));
    var rc;
    rc, taken := api.WaitForData();
  }
}
