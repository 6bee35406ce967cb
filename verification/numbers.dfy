/** JavaScript Number values and the ToInt32 conversion of ECMA-262
    (section 7.1.6, "ToInt32"), which both `threads | 0` in the constructor and
    `DataView.prototype.setInt32` apply to their operand. */
module JsNumbers {

  const TWO_32: int := 0x1_0000_0000
  const TWO_31: int := 0x8000_0000

  /** A Number after ToNumber (section 7.1.4 of ECMA-262): a finite value or
      one of the non-finite ones. ToNumber itself is not modelled: it maps
      `undefined` and non-numeric strings to NaN, `null` and `false` to 0,
      `true` to 1, and an object to the Number of its primitive value
      (`[7]` to 7), and it throws a TypeError for a Symbol or a BigInt. */
  datatype JsNumber = Finite(value: real) | NaN | PosInfinity | NegInfinity

  predicate IsInt32(n: int) {
    -TWO_31 <= n < TWO_31
  }

  /** The Number holding exactly the integer `n`. */
  function FromInt(n: int): JsNumber {
    Finite(n as real)
  }

  /** Rounding toward zero, the `truncate` of ECMA-262. */
  function Truncate(r: real): (t: int)
    ensures r >= 0.0 ==> t as real <= r < t as real + 1.0
    ensures r < 0.0 ==> t as real - 1.0 < r <= t as real
  {
    if r >= 0.0 then r.Floor else -((-r).Floor)
  }

  /** ECMA-262 ToInt32: the unique 32-bit signed integer congruent, modulo
      2^32, to the truncated value; NaN and the infinities become 0. */
  function ToInt32(x: JsNumber): (r: int)
    ensures IsInt32(r)
    ensures x.Finite? ==> (r - Truncate(x.value)) % TWO_32 == 0
    ensures !x.Finite? ==> r == 0
  {
    match x
    case Finite(v) =>
      var bits := Truncate(v) % TWO_32;
      if bits >= TWO_31 then bits - TWO_32 else bits
    case _ => 0
  }

  /** An integer already in the 32-bit range passes through ToInt32 unchanged. */
  lemma ToInt32OfInt32(n: int)
    requires IsInt32(n)
    ensures ToInt32(FromInt(n)) == n
  {
  }
}
