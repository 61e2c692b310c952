/** Bytes, offsets and stream slices shared by the QUIC stream components. */
module StreamBytes {

  newtype Byte = b: int | 0 <= b < 256

  datatype Option<+T> = None | Some(value: T)

  // The largest value of a byte offset (2^62 - 1), also used for "no final size known yet".
  const MAX_BYTE_COUNT: nat := 0x3FFF_FFFF_FFFF_FFFF

  function Min(a: int, b: int): int {
    if a <= b then a else b
  }

  function Max(a: int, b: int): int {
    if a <= b then b else a
  }

  /** The bytes in data are those of the stream at this offset. */
  ghost predicate IsSlice(stream: seq<Byte>, offset: nat, data: seq<Byte>) {
    offset + |data| <= |stream| && stream[offset..offset + |data|] == data
  }

  lemma SliceOfSlice(stream: seq<Byte>, offset: nat, data: seq<Byte>, a: nat, b: nat)
    requires IsSlice(stream, offset, data) && a <= b <= |data|
    ensures IsSlice(stream, offset + a, data[a..b])
  {
    var part := data[a..b];
    forall i | 0 <= i < |part| ensures stream[offset + a + i] == part[i] {
      assert data[a + i] == stream[offset..offset + |data|][a + i];
    }
  }
}
