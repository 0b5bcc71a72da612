/**
 * Rust's fixed-width integers and the localised text record shared by the
 * QA and describe schemas. Every integer type is the exact range of its
 * Rust counterpart, so a value outside it cannot be built.
 */
module Primitives {

  type u8 = x: int | 0 <= x < 0x100
  type u32 = x: int | 0 <= x < 0x1_0000_0000
  type u64 = x: int | 0 <= x < 0x1_0000_0000_0000_0000
  type i32 = x: int | -0x8000_0000 <= x < 0x8000_0000
  type i64 = x: int | -0x8000_0000_0000_0000 <= x < 0x8000_0000_0000_0000

  /** A decoded `ciborium::Value`; the model never looks inside one. */
  type CborValue(==)

  /**
   * Localised text. Only the translation key is modelled: it is all that
   * key collection reads; the fallback text is not part of this model.
   */
  datatype I18nText = I18nText(key: string)
}
