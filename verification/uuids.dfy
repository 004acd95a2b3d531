/**
 * Identifiers of the `uuid` crate: 128-bit values, of which the all-zero
 * value is the distinguished nil identifier.
 */
module Uuids {

  const UUID_LIMIT: int := 0x1_0000_0000_0000_0000_0000_0000_0000_0000

  newtype Uuid = x: int | 0 <= x < UUID_LIMIT

  /** `Uuid::nil()`. */
  const NIL: Uuid := 0

  /** `Uuid::is_nil`. */
  predicate IsNil(id: Uuid) {
    id == NIL
  }
}
