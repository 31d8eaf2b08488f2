/**
  The host's own copy of the checksum routine. It is a separate definition in
  the host program; its contract ties it to the device's fold `CheckSum.Xor`,
  so both ends compute the same checksum for the same bytes.
 */
module HostChecksum {
  import opened TofisData
  import CheckSum

  /** calculate_checksum on the host: XOR of the first `length` bytes, 0 for a non-positive length. */
  method CalculateChecksum(buffer: seq<byte>, length: int) returns (checksum: byte)
    requires length <= |buffer|
    ensures checksum == CheckSum.Xor(CheckSum.Visited(buffer, length))
    ensures length <= 0 ==> checksum == 0
  {
    checksum := 0;
    for i := 0 to if length > 0 then length else 0
      invariant checksum == CheckSum.Xor(buffer[..i])
    {
      assert buffer[..i + 1][..i] == buffer[..i];
      checksum := checksum ^ buffer[i];
    }
    if length <= 0 {
      assert buffer[..0] == [];
    }
  }

  /** For every buffer and length, the host's copy returns what the device's copy returns. */
  method AgreesWithDevice(buffer: seq<byte>, length: int) returns (host: byte, device: byte)
    requires length <= |buffer|
    ensures host == device
  {
    host := CalculateChecksum(buffer, length);
    device := CheckSum.CalculateChecksum(buffer, length);
  }
}
