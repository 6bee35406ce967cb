/** Octets as stored in an `ArrayBuffer` and read back through a `DataView`. */
module Bytes {

  const BYTE_RANGE: int := 256

  /** One octet of an `ArrayBuffer`. */
  type byte = x: int | 0 <= x < BYTE_RANGE
}
