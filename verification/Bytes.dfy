// Bytes, as streams, containers and URIs are made of them.
module Bytes {

  newtype byte = b: int | 0 <= b < 0x100
}
