/** Eight-bit bytes and strings of them. */
module Octets {
  type Byte = x: int | 0 <= x < 256
  type Bytes = seq<Byte>
  type Id128 = s: Bytes | |s| == 16 witness seq(16, _ => 0)
  type Digest256 = s: Bytes | |s| == 32 witness seq(32, _ => 0)
}
