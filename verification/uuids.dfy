/** Identifiers shared by lyrics and playlists.

    A UUID is a 128-bit value. The store only ever compares identifiers for
    equality, so nothing else about them is modelled. */
module Uuids {

  newtype Uuid = x: int | 0 <= x < 0x1_0000_0000_0000_0000_0000_0000_0000_0000

  /** No element occurs twice in `s`. */
  predicate Distinct<T(==)>(s: seq<T>) {
    forall i, j :: 0 <= i < j < |s| ==> s[i] != s[j]
  }
}
