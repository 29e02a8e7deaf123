/** The closed scalar vocabulary shared by columns, inputs, literals and rows. */
module Scalars {

  datatype ScalarType = Boolean | Bigint | Varchar | Double

  /** An IEEE-754 double up to the facts equality can observe; both zeros are `Finite(0.0)`. */
  datatype DoubleValue = NotANumber | NegativeInfinity | PositiveInfinity | Finite(value: real)

  datatype ScalarValue =
    | BooleanScalar(boolean: bool)
    | BigintScalar(bigint: int)
    | VarcharScalar(varchar: string)
    | DoubleScalar(double: DoubleValue)
  {
    function Type(): ScalarType {
      match this
      case BooleanScalar(_) => Boolean
      case BigintScalar(_) => Bigint
      case VarcharScalar(_) => Varchar
      case DoubleScalar(_) => Double
    }
  }

  /** A compiled scalar: a typed NULL or a concrete value. */
  datatype CompiledScalar = NullOf(nullType: ScalarType) | Concrete(value: ScalarValue) {
    function Type(): ScalarType {
      if NullOf? then nullType else value.Type()
    }
  }

  /** The `==` of the host language: a NaN equals nothing, itself included. */
  predicate SameValue(left: ScalarValue, right: ScalarValue) {
    left == right && left != DoubleScalar(NotANumber)
  }

  /** The scalar comparison written out in the classifier, the mapping validator and the
      reload classifier. */
  predicate SameScalar(left: CompiledScalar, right: CompiledScalar) {
    && left.Type() == right.Type()
    && left.NullOf? == right.NullOf?
    && (left.NullOf? || SameValue(left.value, right.value))
  }
}
