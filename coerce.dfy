/** setVal's conversion of a raw string to a value of the field's kind. */
module Coercion {
  import opened Wrappers
  import opened Strconv
  import opened Errs
  import opened StructWalk

  /** What a field's storage can hold. */
  datatype Value = BoolValue(b: bool) | IntValue(i: int) | FloatValue(f: Float64) | StringValue(s: string)

  /** True when `v` is a value a field of kind `kind` can hold. */
  predicate HasKind(v: Value, kind: Kind)
  {
    match v
    case BoolValue(_) => kind == Scalar(Bool)
    case IntValue(i) => kind == Scalar(Int) && IsInt64(i)
    case FloatValue(_) => kind == Scalar(Float)
    case StringValue(_) => kind == Scalar(String)
  }

  /**
   * The conversion setVal performs: strings verbatim, bools by ParseBool,
   * ints by base-10 64-bit ParseInt, floats by ParseFloat; any other kind
   * is an UnsupportedFieldTypeError.
   */
  function Coerce(kind: Kind, raw: string, fc: FloatCodec): (r: Result<Value, CoercionError>)
    ensures r.Success? ==> HasKind(r.value, kind)
    ensures kind == Scalar(String) ==> r == Success(StringValue(raw))
    ensures kind == Scalar(Bool) ==>
      (r.Success? <==> IsTrueLiteral(raw) || IsFalseLiteral(raw)) &&
      (r.Success? ==> r.value == BoolValue(IsTrueLiteral(raw))) &&
      (r.Failure? ==> r.error == NotABool(raw))
    ensures kind == Scalar(Int) ==>
      (r.Success? <==> ParseInt(raw).Some?) &&
      (r.Success? ==> r.value == IntValue(ParseInt(raw).value)) &&
      (r.Failure? ==> r.error == NotAnInt(raw))
    ensures kind == Scalar(Float) ==>
      (r.Success? <==> fc.parse(raw).Some?) &&
      (r.Success? ==> r.value == FloatValue(fc.parse(raw).value)) &&
      (r.Failure? ==> r.error == NotAFloat(raw))
    ensures !kind.Scalar? ==> r == Failure(UnsupportedFieldType(kind.typeName))
  {
    match kind
    case Scalar(Bool) =>
      (match ParseBool(raw)
       case Some(b) => Success(BoolValue(b))
       case None => Failure(NotABool(raw)))
    case Scalar(Int) =>
      (match ParseInt(raw)
       case Some(i) => Success(IntValue(i))
       case None => Failure(NotAnInt(raw)))
    case Scalar(Float) =>
      (match fc.parse(raw)
       case Some(f) => Success(FloatValue(f))
       case None => Failure(NotAFloat(raw)))
    case Scalar(String) => Success(StringValue(raw))
    case Struct(name, _) => Failure(UnsupportedFieldType(name))
    case Other(name) => Failure(UnsupportedFieldType(name))
  }

  /** A bool written to a file as JSON comes back as the same bool in a bool field. */
  lemma CoerceFormattedBool(b: bool, fc: FloatCodec)
    ensures Coerce(Scalar(Bool), FormatBool(b), fc) == Success(BoolValue(b))
  {
    ParseFormatBool(b);
  }

  /** A 64-bit integer formatted in base 10 comes back as the same integer in an int field. */
  lemma CoerceFormattedInt(i: int, fc: FloatCodec)
    requires IsInt64(i)
    ensures Coerce(Scalar(Int), FormatInt(i), fc) == Success(IntValue(i))
  {
    ParseFormatInt(i);
  }
}
