/** Node's `Buffer`: a sequence of byte values, each in 0..255. */
module Buffers {

  type byte = x: int | 0 <= x < 256

  type Buffer = seq<byte>
}
