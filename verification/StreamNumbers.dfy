/** IDs of streams, which grow by four within a type. */
module StreamNumbers {
  const INVALID_STREAM_ID: int := -1
  const MAX_STREAM_ID: int := 0x3FFF_FFFF_FFFF_FFFF

  function StreamNum(id: int): int {
    if id == INVALID_STREAM_ID then 0 else id / 4 + 1
  }

  // The ID of stream number n of the type whose first ID is given.
  function StreamID(first: int, n: nat): int {
    if n == 0 then INVALID_STREAM_ID else first + 4 * (n - 1)
  }

  predicate OfType(first: int, id: int) {
    first <= id && (id - first) % 4 == 0
  }
}
