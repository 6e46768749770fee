/** What several modules share: optional values, the 64-bit range, minima, and the
address of a document within a search. */
module Prelude {

  datatype Option<+T> = None | Some(value: T)

  const I64_MAX: int := 0x7fff_ffff_ffff_ffff
  const I64_MIN: int := -0x8000_0000_0000_0000

  predicate IsI64(x: int) {
    I64_MIN <= x <= I64_MAX
  }

  function Min(a: int, b: int): int {
    if a < b then a else b
  }

  /** Split, segment and document number: the last word in every result order. */
  datatype Address = Address(split: nat, segment: nat, doc: nat) {
    predicate Before(b: Address) {
      split < b.split || (split == b.split && (segment < b.segment || (segment == b.segment && doc < b.doc)))
    }
  }
}
