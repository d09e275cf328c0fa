/// Fixed-width unsigned integers of the source, as integer ranges.
module Bytes {

  newtype uint8 = x: int | 0 <= x < 0x100

  newtype uint16 = x: int | 0 <= x < 0x1_0000

  newtype uint32 = x: int | 0 <= x < 0x1_0000_0000

  newtype uint64 = x: int | 0 <= x < 0x1_0000_0000_0000_0000
}
