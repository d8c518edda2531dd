/**
 * Go's string and byte types as the server uses them. A Go `string` is an
 * immutable sequence of bytes; the request fields, the stored document fields
 * and the base64 text the server produces are all of this type.
 */
module GoStrings {

  /** A Go `byte` (uint8). */
  type byte = b: int | 0 <= b < 256

  /** A Go `string`, seen as its bytes. */
  type GoString = seq<byte>
}
