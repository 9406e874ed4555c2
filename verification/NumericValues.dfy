/** Numbers as documents hold them and as packed integers whose order is theirs. */
module NumericValues {
  import opened Options
  import opened Numbers

  const TWO63: nat := 0x8000_0000_0000_0000

  newtype I64 = x: int | -0x8000_0000_0000_0000 <= x < 0x8000_0000_0000_0000

  datatype Kind = IntKind | FloatKind

  /** A float is its 64 bits: sign, exponent, fraction. */
  datatype Value = Int(i: I64) | Float(bits: U64) {
    function Kind(): Kind { if Int? then IntKind else FloatKind }
  }

  predicate Negative(bits: U64) { bits >= TWO63 }
  function Magnitude(bits: U64): nat { if Negative(bits) then bits - TWO63 else bits }

  /** totalOrder of section 5.10 of IEEE 754-2008, strict: negatives first, the larger magnitude first
      among them. */
  predicate TotalLess(a: U64, b: U64)
  {
    if Negative(a) != Negative(b) then Negative(a)
    else if Negative(a) then Magnitude(a) > Magnitude(b)
    else Magnitude(a) < Magnitude(b)
  }

  /** The order of values; between the kinds, integers come first. */
  predicate Less(a: Value, b: Value)
  {
    match (a, b)
    case (Int(x), Int(y)) => x < y
    case (Float(x), Float(y)) => TotalLess(x, y)
    case (Int(_), Float(_)) => true
    case (Float(_), Int(_)) => false
  }

  lemma LessIsTotalOrder(a: Value, b: Value, c: Value)
    ensures !Less(a, a)
    ensures Less(a, b) || Less(b, a) || a == b
    ensures Less(a, b) ==> !Less(b, a)
    ensures Less(a, b) && Less(b, c) ==> Less(a, c)
  {
  }

  // ---------------------------------------------------------------------------------------
  // Packing.
  // ---------------------------------------------------------------------------------------

  /** Exclusive or with the top bit. */
  function FlipTop(x: U64): U64 { if x < TWO63 then x + TWO63 else x - TWO63 }

  function Complement(x: U64): U64 { TWO64 - 1 - x }

  /** The two's complement bits of an integer, and back. */
  function ToBits(i: I64): U64 { if i < 0 then (i as int) + TWO64 else i as int }
  function FromBits(x: U64): I64 { if x < TWO63 then x as I64 else (x - TWO64) as I64 }

  function PackInt(i: I64): U64 { FlipTop(ToBits(i)) }
  function UnpackInt(packed: U64): I64 { FromBits(FlipTop(packed)) }

  function PackFloat(bits: U64): U64 { if Negative(bits) then Complement(bits) else FlipTop(bits) }
  function UnpackFloat(packed: U64): U64 { if packed >= TWO63 then FlipTop(packed) else Complement(packed) }

  function Pack(v: Value): U64 { match v case Int(i) => PackInt(i) case Float(bits) => PackFloat(bits) }

  function Unpack(packed: U64, kind: Kind): Value
  {
    match kind case IntKind => Int(UnpackInt(packed)) case FloatKind => Float(UnpackFloat(packed))
  }

  /** Packing keeps the order of values of one kind and loses nothing; every packed integer is some
      value of the kind. */
  lemma PackingIsOrderIsomorphism(a: Value, b: Value, packed: U64, kind: Kind)
    ensures a.Kind() == b.Kind() ==> (Less(a, b) <==> Pack(a) < Pack(b))
    ensures Unpack(Pack(a), a.Kind()) == a
    ensures Pack(Unpack(packed, kind)) == packed && Unpack(packed, kind).Kind() == kind
  {
  }

  // ---------------------------------------------------------------------------------------
  // Bounds.
  // ---------------------------------------------------------------------------------------

  datatype Bound = Bound(value: Value, inclusive: bool) {
    predicate BelowLo(v: Value) { Less(v, value) || (v == value && !inclusive) }
    predicate PastHi(v: Value) { Less(value, v) || (v == value && !inclusive) }
  }

  predicate InBounds(v: Value, lo: Option<Bound>, hi: Option<Bound>)
  {
    (lo.Some? ==> !lo.value.BelowLo(v)) && (hi.Some? ==> !hi.value.PastHi(v))
  }

  /** The bounds are of the field's kind. */
  predicate OfKind(b: Option<Bound>, kind: Kind) { b.Some? ==> b.value.value.Kind() == kind }
}
