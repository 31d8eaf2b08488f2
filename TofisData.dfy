/**
  Data model shared by the device and the host: the ranging result, one zone
  of it, and the wire packet, with the build-time constants that fix their
  shape. Every 4-byte field is kept as the four bytes it occupies in memory
  on the little-endian targets (least significant byte first): a uint32 is
  read as a number through `Value`, a float stays an opaque word.
 */
module TofisData {

  type byte = bv8

  /** A 4-byte field as it lies in memory, least significant byte first. */
  type Word = w: seq<byte> | |w| == 4 witness [0, 0, 0, 0]

  const ZeroWord: Word := [0, 0, 0, 0]

  /** The uint32 that a word holds. */
  function Value(w: Word): (v: nat)
    ensures v < 0x1_0000_0000
  {
    w[0] as nat + 0x100 * (w[1] as nat) + 0x1_0000 * (w[2] as nat) + 0x100_0000 * (w[3] as nat)
  }

  // Host header constants
  const NbTargetPerZone: nat := 1
  const MaxNbZones: nat := 64

  // Device header constants
  const MaxResolution: nat := 8
  const MaxDataSize: nat := MaxResolution * MaxResolution
  const PingPongBufferSize: nat := 2048
  const CheckSumStartByte: nat := 4

  // Packet markers
  const StartByte: byte := 0xAA
  const EndByte: byte := 0x55
  const HeaderSize: nat := 4

  /** Alignment padding between the 1-byte target count and the first 4-byte array. */
  const ZonePaddingSize: nat := 3
  /** sizeof(RANGING_SENSOR_ZoneResult_t): 1 + 3 padding + four arrays of 4-byte entries. */
  const ZoneResultSize: nat := 20
  /** sizeof(RANGING_SENSOR_Result_t): a 4-byte zone count and the zone array. */
  const ResultSize: nat := 1284
  /** sizeof(tofis_data_packet_t): the 4 header bytes and the result. */
  const PacketSize: nat := 1288

  type Padding = s: seq<byte> | |s| == ZonePaddingSize witness [0, 0, 0]
  type TargetWords = s: seq<Word> | |s| == NbTargetPerZone witness [ZeroWord]

  /** RANGING_SENSOR_ZoneResult_t, padding bytes included (memcpy copies them). */
  datatype ZoneResult = ZoneResult(
    numberOfTargets: byte,
    padding: Padding,
    distance: TargetWords,   // uint32, millimeters
    status: TargetWords,     // uint32, 0 means OK, anything else an error code
    ambient: TargetWords,    // float, kcps / spad
    signal: TargetWords      // float, kcps / spad
  )

  const ZeroZone: ZoneResult := ZoneResult(0, [0, 0, 0], [ZeroWord], [ZeroWord], [ZeroWord], [ZeroWord])

  type ZoneArray = s: seq<ZoneResult> | |s| == MaxNbZones witness seq(64, _ => ZeroZone)

  /** RANGING_SENSOR_Result_t: a zone count and a fixed-capacity zone array. */
  datatype Result = Result(numberOfZones: Word, zoneResult: ZoneArray)

  /** tofis_data_packet_t; the device and the host declare it field for field alike. */
  datatype Packet = Packet(startByte: byte, resolution: byte, checksum: byte, endByte: byte, data: Result)

  const ZeroResult: Result := Result(ZeroWord, seq(64, _ => ZeroZone))
  const ZeroPacket: Packet := Packet(0, 0, 0, 0, ZeroResult)


  /** The constants fix the sizes the rest of the model relies on. */
  lemma SizeConstants()
    ensures ZoneResultSize == 1 + ZonePaddingSize + 16 * NbTargetPerZone
    ensures ResultSize == 4 + MaxNbZones * ZoneResultSize
    ensures PacketSize == HeaderSize + ResultSize
    ensures MaxDataSize == MaxNbZones && CheckSumStartByte == HeaderSize
  {
  }
}
