/**
 * Machine integers of the Modbus RTU master: wire bytes, 16-bit registers and
 * 32-bit values, with the big-endian register conversion used on the wire.
 */
module Bytes {

  type byte = x: int | 0 <= x < 0x100
  type u16 = x: int | 0 <= x < 0x1_0000
  type u32 = x: int | 0 <= x < 0x1_0000_0000

  /** `utils::bigEndianConv`: two wire bytes, high byte first, read as one register. */
  function BigEndian16(hi: byte, lo: byte): (r: u16)
    ensures r / 256 == hi && r % 256 == lo
  {
    hi * 256 + lo
  }

  /** `n` NUL bytes, the fill of a freshly constructed `std::vector<uint8_t>(n, 0)`. */
  function Zeros(n: nat): (z: seq<byte>)
    ensures |z| == n && forall i :: 0 <= i < n ==> z[i] == 0
  {
    seq(n, _ => 0)
  }

  /** Bytes of an ASCII text literal. */
  function Ascii(s: string): (b: seq<byte>)
    requires forall i :: 0 <= i < |s| ==> s[i] as int < 0x80
    ensures |b| == |s| && forall i :: 0 <= i < |s| ==> b[i] == s[i] as int
  {
    seq(|s|, i requires 0 <= i < |s| => s[i] as int)
  }
}
