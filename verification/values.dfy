/**
 Static types, roles and run-time values. A static type stands for the Java
 `Class<?>` an expression or a column carries; `NullT` stands for the type
 of a null constant (`Object`), the one the null checks look for.
 */
module Values {

  datatype Type = NullT | IntegerT | RealT | BooleanT | StringT | DatasetT

  datatype Role = Identifier | Measure | Attribute

  const MIN_LONG: int := -0x8000_0000_0000_0000
  const MAX_LONG: int := 0x7fff_ffff_ffff_ffff
  const TWO_64: int := 0x1_0000_0000_0000_0000

  /** A Java `long`. */
  newtype Long = x: int | -0x8000_0000_0000_0000 <= x < 0x8000_0000_0000_0000

  /**
   A Java `double`, kept symbolic: the model records which conversion or
   operation produced it, not the IEEE 754 number it denotes.
   */
  datatype Double =
    | Lit(r: real)                  // a decimal literal as written
    | OfLong(n: Long)               // `Long.doubleValue()`
    | Times(a: Double, b: Double)   // IEEE product
    | Over(a: Double, b: Double)    // IEEE quotient

  /** A scalar value; `Null` is Java's null reference. */
  datatype Value = Null | LongV(n: Long) | DoubleV(d: Double) | BoolV(b: bool) | StrV(s: string)

  /** The class of a scalar at run time; null has the type of a null constant. */
  function TypeOfValue(v: Value): (t: Type)
    ensures t == NullT <==> v == Null
    ensures t != DatasetT
  {
    match v
    case Null => NullT
    case LongV(_) => IntegerT
    case DoubleV(_) => RealT
    case BoolV(_) => BooleanT
    case StrV(_) => StringT
  }

  /**
   Java's `long * long`: the mathematical product reduced into the signed
   64-bit range. It agrees with the exact product modulo 2^64 and equals it
   whenever it fits.
   */
  function Wrap64(x: int): (r: Long)
    ensures (r as int - x) % TWO_64 == 0
    ensures MIN_LONG <= x <= MAX_LONG ==> r as int == x
  {
    var m := x % TWO_64;
    if m <= MAX_LONG then m as Long else (m - TWO_64) as Long
  }
}
