/** Three-way comparison: negative, zero or positive sign. */
module Orders {
  import opened Text

  datatype Sign = Less | Equal | Greater

  function CompareInt(a: int, b: int): Sign {
    if a < b then Less else if a == b then Equal else Greater
  }

  function CompareReal(a: real, b: real): Sign {
    if a < b then Less else if a == b then Equal else Greater
  }

  function CompareText(a: string, b: string): Sign {
    if a == b then Equal else if LexLe(a, b) then Less else Greater
  }

  function Then(first: Sign, second: Sign): Sign {
    if first.Equal? then second else first
  }

  datatype CmpOp = Eq | Ne | Lt | Le | Gt | Ge

  predicate Holds(op: CmpOp, sign: Sign) {
    match op
    case Eq => sign.Equal?
    case Ne => !sign.Equal?
    case Lt => sign.Less?
    case Le => !sign.Greater?
    case Gt => sign.Greater?
    case Ge => !sign.Less?
  }
}

/** IEEE 754 values under the two orders that meet in a pushed-down filter. */
module Floats {
  import opened Orders

  type NonZeroReal = r: real | r != 0.0 witness 1.0

  datatype Float = NaN | Infinite(negative: bool) | NonZero(value: NonZeroReal) | Zero(negative: bool)

  function Class(f: Float): int {
    match f
    case NaN => 2
    case Infinite(negative) => if negative then -1 else 1
    case _ => 0
  }

  function Magnitude(f: Float): real {
    if f.NonZero? then f.value else 0.0
  }

  /** DuckDB's order: the zeros are equal, and NaN is equal to itself and greatest. */
  function DuckFloatCompare(a: Float, b: Float): Sign {
    Then(CompareInt(Class(a), Class(b)), CompareReal(Magnitude(a), Magnitude(b)))
  }

  /** Iceberg's order, totalOrder of IEEE 754-2019 section 5.10 with one positive NaN: -0 comes before +0. */
  function IcebergFloatCompare(a: Float, b: Float): Sign {
    Then(DuckFloatCompare(a, b),
         if a.Zero? && b.Zero? then CompareInt(if a.negative then 0 else 1, if b.negative then 0 else 1) else Equal)
  }

  /** The constants ConvertFilterConstant lets through. */
  predicate Guarded(c: Float) {
    !c.NaN? && !c.Zero?
  }

  /** A guarded constant compares with every column value alike under both orders. */
  lemma GuardSufficient(c: Float, v: Float, op: CmpOp)
    requires Guarded(c)
    ensures Holds(op, DuckFloatCompare(v, c)) == Holds(op, IcebergFloatCompare(v, c))
  {
  }

  /** So does a list of guarded constants: a value is in it under one order exactly when it is under the other. */
  lemma GuardSufficientForIn(constants: seq<Float>, v: Float)
    requires forall i | 0 <= i < |constants| :: Guarded(constants[i])
    ensures (exists i | 0 <= i < |constants| :: DuckFloatCompare(v, constants[i]).Equal?) <==>
            (exists i | 0 <= i < |constants| :: IcebergFloatCompare(v, constants[i]).Equal?)
  {
    forall i | 0 <= i < |constants|
      ensures DuckFloatCompare(v, constants[i]).Equal? <==> IcebergFloatCompare(v, constants[i]).Equal?
    {
      GuardSufficient(constants[i], v, Eq);
    }
  }

  /** Without the guard, a zero constant disagrees exactly at the other zero, for four of the six comparisons. */
  lemma ZeroConstantDisagreesExactly(c: Float, v: Float, op: CmpOp)
    requires c.Zero?
    ensures Holds(op, DuckFloatCompare(v, c)) != Holds(op, IcebergFloatCompare(v, c)) <==>
            && v == Zero(!c.negative)
            && op != (if c.negative then Lt else Le)
            && op != (if c.negative then Ge else Gt)
  {
  }

  /** Without the guard, pruning by a zero constant loses a row exactly for = and one comparison admitting equality. */
  lemma ZeroConstantLosesExactly(c: Float, v: Float, op: CmpOp)
    requires c.Zero?
    ensures Holds(op, DuckFloatCompare(v, c)) && !Holds(op, IcebergFloatCompare(v, c)) <==>
            v == Zero(!c.negative) && (op == Eq || op == if c.negative then Le else Ge)
  {
  }
}

/** 128-bit integers built from two 64-bit words, as DuckDB's hugeint_t holds them. */
module Wide {
  function Pow2(n: nat): (p: nat)
    ensures p >= 1
  {
    if n == 0 then 1 else 2 * Pow2(n - 1)
  }

  const TWO_64: int := 0x1_0000_0000_0000_0000
  const TWO_127: int := 0x8000_0000_0000_0000_0000_0000_0000_0000
  const TWO_128: int := 0x1_0000_0000_0000_0000_0000_0000_0000_0000

  type Int128 = x: int | -TWO_127 <= x < TWO_127
  type Int64 = x: int | -0x8000_0000_0000_0000 <= x < 0x8000_0000_0000_0000
  type UInt64 = x: int | 0 <= x < TWO_64

  datatype HugeInt = HugeInt(upper: Int64, lower: UInt64)

  /** IntegralValue::Get on a value of any width: the sign-extended two-word form. */
  function ToHugeInt(x: Int128): HugeInt {
    HugeInt(x / TWO_64, x % TWO_64)
  }

  function ToUnsigned(x: int): (u: nat)
    ensures u < TWO_128
  {
    x % TWO_128
  }

  function ToSigned(u: nat): Int128
    requires u < TWO_128
  {
    if u < TWO_127 then u else u - TWO_128
  }

  function BitOr(a: nat, b: nat): nat {
    if a == 0 && b == 0 then 0
    else (if a % 2 == 1 || b % 2 == 1 then 1 else 0) + 2 * BitOr(a / 2, b / 2)
  }

  /** (static_cast<int128_t>(upper) << 64) | lower, in two's complement. */
  function Combine(raw: HugeInt): Int128
  {
    ToSigned(BitOr(ToUnsigned(raw.upper * TWO_64), ToUnsigned(raw.lower)) % TWO_128)
  }

  lemma {:induction false} OrIsSumOfDisjointBits(h: nat, k: nat, low: nat)
    requires low < Pow2(k)
    ensures BitOr(h * Pow2(k), low) == h * Pow2(k) + low
    decreases k, h
  {
    if k == 0 {
      OrZero(h);
    } else {
      var a := h * Pow2(k);
      assert a == 2 * (h * Pow2(k - 1));
      OrIsSumOfDisjointBits(h, k - 1, low / 2);
      assert a / 2 == h * Pow2(k - 1) && a % 2 == 0;
    }
  }

  lemma {:induction false} OrZero(h: nat)
    ensures BitOr(h, 0) == h
  {
    if h != 0 {
      OrZero(h / 2);
    }
  }

  lemma Pow64()
    ensures Pow2(64) == TWO_64
  {
    assert Pow2(8) == 0x100;
    assert Pow2(16) == 0x1_0000;
    assert Pow2(24) == 0x100_0000;
    assert Pow2(32) == 0x1_0000_0000;
    assert Pow2(40) == 0x100_0000_0000;
    assert Pow2(48) == 0x1_0000_0000_0000;
    assert Pow2(56) == 0x100_0000_0000_0000;
  }

  lemma ShiftedUpper(upper: Int64)
    ensures ToUnsigned(upper * TWO_64) == (if upper >= 0 then upper else upper + TWO_64) * TWO_64
  {
  }

  lemma SignedSum(raw: HugeInt)
    ensures var u: nat := (if raw.upper >= 0 then raw.upper else raw.upper + TWO_64) * TWO_64 + raw.lower;
            u < TWO_128 && ToSigned(u % TWO_128) == raw.upper * TWO_64 + raw.lower
  {
  }

  lemma OrOfWords(raw: HugeInt)
    ensures BitOr(ToUnsigned(raw.upper * TWO_64), ToUnsigned(raw.lower))
            == (if raw.upper >= 0 then raw.upper else raw.upper + TWO_64) * TWO_64 + raw.lower
  {
    Pow64();
    ShiftedUpper(raw.upper);
    OrIsSumOfDisjointBits(if raw.upper >= 0 then raw.upper else raw.upper + TWO_64, 64, raw.lower);
  }

  /** The shifted and or-ed words are the number the two words stand for, negative ones included. */
  lemma CombineIsSum(raw: HugeInt)
    ensures Combine(raw) == raw.upper * TWO_64 + raw.lower
  {
    OrOfWords(raw);
    SignedSum(raw);
  }

  lemma CombineRestores(x: Int128)
    ensures Combine(ToHugeInt(x)) == x
  {
    CombineIsSum(ToHugeInt(x));
  }
}

/** DuckDB values, Iceberg literals, and the conversion between them. */
module Literals {
  import opened Wrappers
  import opened Orders
  import opened Floats
  import opened Wide
  import opened Columns
  import IcebergTypes

  /** A DuckDB value of one of the types an Iceberg column or a filter constant can have. */
  datatype Value =
    | Null
    | BooleanValue(boolean: bool)
    | TinyIntValue(tiny: int)
    | SmallIntValue(small: int)
    | IntegerValue(integer: int)
    | BigIntValue(bigint: int)
    | FloatValue(float: Float)
    | DoubleValue(double: Float)
    | VarcharValue(text: string)
    | DateValue(days: int)
    | TimeValue(micros: int)
    | TimestampValue(timestamp: int)
    | TimestampTzValue(timestampTz: int)
    | DecimalValue(unscaled: Int128, width: nat, scale: nat)
    | BlobValue(bytes: string)
    | UuidValue(uuid: int)
    | NestedValue(fields: seq<Value>)

  datatype Literal =
    | BoolLiteral(boolean: bool)
    | IntLiteral(int32: int)
    | LongLiteral(int64: int)
    | FloatLiteral(float: Float)
    | DoubleLiteral(double: Float)
    | StringLiteral(text: string)
    | DateLiteral(days: int)
    | TimeLiteral(micros: int)
    | TimestampLiteral(timestamp: int)
    | TimestampTzLiteral(timestampTz: int)
    | DecimalLiteral(unscaled: Int128, precision: nat, scale: nat)

  function ConvertValueToLiteral(v: Value): Option<Literal> {
    match v
    case BooleanValue(b) => Some(BoolLiteral(b))
    case TinyIntValue(i) => Some(IntLiteral(i))
    case SmallIntValue(i) => Some(IntLiteral(i))
    case IntegerValue(i) => Some(IntLiteral(i))
    case BigIntValue(i) => Some(LongLiteral(i))
    case FloatValue(f) => Some(FloatLiteral(f))
    case DoubleValue(f) => Some(DoubleLiteral(f))
    case VarcharValue(s) => Some(StringLiteral(s))
    case DateValue(d) => Some(DateLiteral(d))
    case TimeValue(t) => Some(TimeLiteral(t))
    case TimestampValue(t) => Some(TimestampLiteral(t))
    case TimestampTzValue(t) => Some(TimestampTzLiteral(t))
    case DecimalValue(unscaled, width, scale) =>
      Some(DecimalLiteral(Combine(ToHugeInt(unscaled)), width, scale))
    case _ => None
  }

  /** How Iceberg stores a column's value: dates as days from the epoch, times and timestamps as microseconds, decimals
      as their unscaled integer. None for NULL, and for the types no literal is built for. */
  function Stored(v: Value): Option<Literal> {
    match v
    case Null => None
    case BooleanValue(b) => Some(BoolLiteral(b))
    case TinyIntValue(i) => Some(IntLiteral(i))
    case SmallIntValue(i) => Some(IntLiteral(i))
    case IntegerValue(i) => Some(IntLiteral(i))
    case BigIntValue(i) => Some(LongLiteral(i))
    case FloatValue(x) => Some(FloatLiteral(x))
    case DoubleValue(x) => Some(DoubleLiteral(x))
    case VarcharValue(text) => Some(StringLiteral(text))
    case DateValue(days) => Some(DateLiteral(days))
    case TimeValue(micros) => Some(TimeLiteral(micros))
    case TimestampValue(micros) => Some(TimestampLiteral(micros))
    case TimestampTzValue(micros) => Some(TimestampTzLiteral(micros))
    case DecimalValue(unscaled, width, scale) => Some(DecimalLiteral(unscaled, width, scale))
    case BlobValue(_) => None
    case UuidValue(_) => None
    case NestedValue(_) => None
  }

  /** The literal to compare with, or None for the constants the two orders, or the planner, disagree on. */
  function ConvertFilterConstant(c: Value): Option<Literal> {
    if (c.FloatValue? && !Guarded(c.float)) || (c.DoubleValue? && !Guarded(c.double)) then None
    else ConvertValueToLiteral(c)
  }

  /** DuckDB's comparison of two values of one type; None when either is NULL or the types differ. */
  function DuckCompare(a: Value, b: Value): Option<Sign> {
    match (a, b)
    case (BooleanValue(x), BooleanValue(y)) => Some(CompareInt(if x then 1 else 0, if y then 1 else 0))
    case (TinyIntValue(x), TinyIntValue(y)) => Some(CompareInt(x, y))
    case (SmallIntValue(x), SmallIntValue(y)) => Some(CompareInt(x, y))
    case (IntegerValue(x), IntegerValue(y)) => Some(CompareInt(x, y))
    case (BigIntValue(x), BigIntValue(y)) => Some(CompareInt(x, y))
    case (FloatValue(x), FloatValue(y)) => Some(DuckFloatCompare(x, y))
    case (DoubleValue(x), DoubleValue(y)) => Some(DuckFloatCompare(x, y))
    case (VarcharValue(x), VarcharValue(y)) => Some(CompareText(x, y))
    case (DateValue(x), DateValue(y)) => Some(CompareInt(x, y))
    case (TimeValue(x), TimeValue(y)) => Some(CompareInt(x, y))
    case (TimestampValue(x), TimestampValue(y)) => Some(CompareInt(x, y))
    case (TimestampTzValue(x), TimestampTzValue(y)) => Some(CompareInt(x, y))
    case (DecimalValue(x, w, s), DecimalValue(y, w', s')) =>
      if w == w' && s == s' then Some(CompareInt(x, y)) else None
    case (BlobValue(x), BlobValue(y)) => Some(CompareText(x, y))
    case (UuidValue(x), UuidValue(y)) => Some(CompareInt(x, y))
    case _ => None
  }

  /** Iceberg's comparison of two literals of one type. */
  function LiteralCompare(a: Literal, b: Literal): Option<Sign> {
    match (a, b)
    case (BoolLiteral(x), BoolLiteral(y)) => Some(CompareInt(if x then 1 else 0, if y then 1 else 0))
    case (IntLiteral(x), IntLiteral(y)) => Some(CompareInt(x, y))
    case (LongLiteral(x), LongLiteral(y)) => Some(CompareInt(x, y))
    case (FloatLiteral(x), FloatLiteral(y)) => Some(IcebergFloatCompare(x, y))
    case (DoubleLiteral(x), DoubleLiteral(y)) => Some(IcebergFloatCompare(x, y))
    case (StringLiteral(x), StringLiteral(y)) => Some(CompareText(x, y))
    case (DateLiteral(x), DateLiteral(y)) => Some(CompareInt(x, y))
    case (TimeLiteral(x), TimeLiteral(y)) => Some(CompareInt(x, y))
    case (TimestampLiteral(x), TimestampLiteral(y)) => Some(CompareInt(x, y))
    case (TimestampTzLiteral(x), TimestampTzLiteral(y)) => Some(CompareInt(x, y))
    case (DecimalLiteral(x, p, s), DecimalLiteral(y, p', s')) =>
      if p == p' && s == s' then Some(CompareInt(x, y)) else None
    case _ => None
  }

  /** A decimal's literal holds its unscaled value, whatever its sign. */
  lemma DecimalLiteralIsExact(unscaled: Int128, width: nat, scale: nat)
    ensures ConvertValueToLiteral(DecimalValue(unscaled, width, scale)) == Some(DecimalLiteral(unscaled, width, scale))
  {
    CombineRestores(unscaled);
  }

  /** A constant's literal is what a column holding that very value stores. */
  lemma ConversionIsStoredForm(v: Value)
    ensures ConvertValueToLiteral(v) == Stored(v)
  {
    if v.DecimalValue? {
      DecimalLiteralIsExact(v.unscaled, v.width, v.scale);
    }
  }

  /** A constant that can be pushed down: of a type that has literals, and neither NaN nor a zero. */
  predicate Pushable(c: Value) {
    match c
    case FloatValue(x) => x != NaN && x != Zero(false) && x != Zero(true)
    case DoubleValue(x) => x != NaN && x != Zero(false) && x != Zero(true)
    case _ => Stored(c).Some?
  }

  lemma ConstantsConvertExactly(c: Value)
    ensures ConvertFilterConstant(c) == if Pushable(c) then Stored(c) else None
  {
    ConversionIsStoredForm(c);
  }

  /** Conversion embeds DuckDB's order in Iceberg's: for a column value as stored, against the literal of a pushed-down
      constant of its type, every comparison comes out the same. */
  lemma ConversionEmbedsOrder(v: Value, c: Value, op: CmpOp)
    requires ConvertFilterConstant(c).Some?
    requires DuckCompare(v, c).Some?
    ensures Stored(v).Some?
    ensures LiteralCompare(Stored(v).value, ConvertFilterConstant(c).value).Some?
    ensures Holds(op, LiteralCompare(Stored(v).value, ConvertFilterConstant(c).value).value)
            == Holds(op, DuckCompare(v, c).value)
  {
    ConstantsConvertExactly(c);
    match (v, c)
    case (FloatValue(x), FloatValue(y)) => GuardSufficient(y, x, op);
    case (DoubleValue(x), DoubleValue(y)) => GuardSufficient(y, x, op);
    case _ =>
  }

  function TypeOf(v: Value): Option<LogicalType> {
    match v
    case BooleanValue(_) => Some(BOOLEAN)
    case IntegerValue(_) => Some(INTEGER)
    case BigIntValue(_) => Some(BIGINT)
    case FloatValue(_) => Some(FLOAT)
    case DoubleValue(_) => Some(DOUBLE)
    case VarcharValue(_) => Some(VARCHAR)
    case DateValue(_) => Some(DATE)
    case TimeValue(_) => Some(TIME)
    case TimestampValue(_) => Some(TIMESTAMP)
    case TimestampTzValue(_) => Some(TIMESTAMP_TZ)
    case DecimalValue(_, width, scale) => Some(DECIMAL(width, scale))
    case BlobValue(_) => Some(BLOB)
    case UuidValue(_) => Some(UUID)
    case _ => None
  }

  function LiteralType(l: Literal): IcebergTypes.Type {
    match l
    case BoolLiteral(_) => IcebergTypes.Boolean
    case IntLiteral(_) => IcebergTypes.Int
    case LongLiteral(_) => IcebergTypes.Long
    case FloatLiteral(_) => IcebergTypes.Float
    case DoubleLiteral(_) => IcebergTypes.Double
    case StringLiteral(_) => IcebergTypes.String
    case DateLiteral(_) => IcebergTypes.Date
    case TimeLiteral(_) => IcebergTypes.Time
    case TimestampLiteral(_) => IcebergTypes.Timestamp
    case TimestampTzLiteral(_) => IcebergTypes.TimestampTz
    case DecimalLiteral(_, precision, scale) => IcebergTypes.Decimal(precision, scale)
  }

  /** The type mapping and the literal conversion are inverse: a value of the DuckDB type an Iceberg column maps to
      becomes a literal of that column's own type, unless the column is binary or fixed, and the value a blob, or both
      are UUIDs. */
  lemma LiteralsHaveTheColumnType(t: IcebergTypes.Type, v: Value)
    requires TypeOf(v).Some? && MapType(t) == TypeOf(v)
    ensures ConvertValueToLiteral(v).None? <==> t.Binary? || t.Fixed? || t.Uuid?
    ensures ConvertValueToLiteral(v).Some? ==> LiteralType(ConvertValueToLiteral(v).value) == t
    ensures t.Binary? || t.Fixed? ==> v.BlobValue?
    ensures t.Uuid? ==> v.UuidValue?
  {
  }
}
