/** Fixed-width unsigned integers and the byte orders the components use. */
module Words {

  type byte = x: int | 0 <= x < 0x100
  type u16 = x: int | 0 <= x < 0x1_0000
  type u32 = x: int | 0 <= x < 0x1_0000_0000
  type u64 = x: int | 0 <= x < 0x1_0000_0000_0000_0000

  const U32_MAX := 0xFFFF_FFFF

  /** The value of two bytes in network order. */
  function BigEndian16(high: byte, low: byte): u16 {
    high * 0x100 + low
  }

  function LittleEndian16(low: byte, high: byte): u16 {
    low + high * 0x100
  }

  function LittleEndian32(b0: byte, b1: byte, b2: byte, b3: byte): u32 {
    b0 + b1 * 0x100 + b2 * 0x1_0000 + b3 * 0x100_0000
  }

  /** The four bytes of a word, least significant first. */
  function Bytes32(value: u32): seq<byte> {
    [value % 0x100, value / 0x100 % 0x100, value / 0x1_0000 % 0x100, value / 0x100_0000]
  }

  lemma Bytes32RoundTrip(value: u32)
    ensures |Bytes32(value)| == 4
    ensures LittleEndian32(Bytes32(value)[0], Bytes32(value)[1], Bytes32(value)[2], Bytes32(value)[3]) == value
  {
    var high := value / 0x100;
    assert value == value % 0x100 + high * 0x100;
    assert value / 0x1_0000 == high / 0x100;
    assert value / 0x100_0000 == high / 0x1_0000;
    var higher := high / 0x100;
    assert high == high % 0x100 + higher * 0x100;
    assert higher == higher % 0x100 + higher / 0x100 * 0x100;
  }
}
