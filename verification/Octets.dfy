/** Bytes, as the gateway's scanners and codecs see text. */
module Octets {
  type byte = x: int | 0 <= x < 256
}
