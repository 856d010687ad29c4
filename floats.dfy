/**
 * Floating-point payloads. The model does no floating-point arithmetic:
 * a 32-bit float is carried as the decimal text its `Display` prints (which
 * is always a float literal), a 64-bit float as its IEEE 754 bit pattern.
 */
module Floats {
  import Text

  /** The `Display` text of an f32: digits with optional sign and point, or `NaN`, `inf`, `-inf`. */
  type F32Text = s: string | Text.IsFloatLiteral(s) witness "0"

  /** An f64, by its bits. */
  datatype F64 = F64(bits: bv64)

  /** Neither NaN nor an infinity: the exponent field is not all ones. */
  predicate IsFinite(d: F64) {
    (d.bits >> 52) & 0x7FF != 0x7FF
  }

  /** What `format!("{}", v)` prints for a NaN or an infinity. */
  function NonFiniteText(d: F64): string {
    if d.bits & 0xF_FFFF_FFFF_FFFF != 0 then "NaN"
    else if d.bits >> 63 == 1 then "-inf"
    else "inf"
  }
}
