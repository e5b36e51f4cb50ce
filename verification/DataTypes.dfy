/** The schema-evolution relation on column types, and what widening does to stored values. */
module DataTypes {
  datatype TimeUnit = Second | Millisecond | Microsecond | Nanosecond

  datatype TimeZone = NoZone | Zone(name: string)

  /** Arrow types. `Other` stands for every type the relation only compares for equality
      (strings, binaries, times, lists, structs and so on). */
  datatype DataType =
    | Int8 | Int16 | Int32 | Int64
    | UInt8 | UInt16 | UInt32 | UInt64
    | Float32 | Float64
    | Date32 | Date64
    | Timestamp(unit: TimeUnit, tz: TimeZone)
    | Decimal128(precision: nat, scale: int)
    | Decimal256(precision: nat, scale: int)
    | Other(description: string)

  predicate CanEvolveTo(a: DataType, b: DataType) {
    a == b ||
    match (a, b)
    case (Int8, _) => b.Int16? || b.Int32? || b.Int64?
    case (Int16, _) => b.Int32? || b.Int64?
    case (Int32, _) => b.Int64?
    case (UInt8, _) => b.UInt16? || b.UInt32? || b.UInt64?
    case (UInt16, _) => b.UInt32? || b.UInt64?
    case (UInt32, _) => b.UInt64?
    case (Float32, _) => b.Float64?
    case (Date32, _) => b.Date64?
    case (Timestamp(u, z), Timestamp(v, y)) =>
      z == y &&
      match u {
        case Second => !v.Second?
        case Millisecond => v.Microsecond? || v.Nanosecond?
        case Microsecond => v.Nanosecond?
        case Nanosecond => false
      }
    case (Decimal128(p, s), Decimal128(q, r)) => s == r && q > p
    case (Decimal256(p, s), Decimal256(q, r)) => s == r && q > p
    case _ => false
  }

  /** Types that can ever be exchanged for one another. */
  datatype Family = Signed | Unsigned | Float | Date | Stamp(tz: TimeZone)
                  | Small(scale: int) | Large(scale: int) | Alone(description: string)

  function FamilyOf(t: DataType): Family {
    match t
    case Int8 | Int16 | Int32 | Int64 => Signed
    case UInt8 | UInt16 | UInt32 | UInt64 => Unsigned
    case Float32 | Float64 => Float
    case Date32 | Date64 => Date
    case Timestamp(_, z) => Stamp(z)
    case Decimal128(_, s) => Small(s)
    case Decimal256(_, s) => Large(s)
    case Other(d) => Alone(d)
  }

  /** Width inside a family: bits, precision, or fractional digits of a second. */
  function Width(t: DataType): nat {
    match t
    case Int8 | UInt8 => 8
    case Int16 | UInt16 => 16
    case Int32 | UInt32 | Float32 | Date32 => 32
    case Int64 | UInt64 | Float64 | Date64 => 64
    case Timestamp(u, _) => (match u case Second => 0 case Millisecond => 3 case Microsecond => 6 case Nanosecond => 9)
    case Decimal128(p, _) => p
    case Decimal256(p, _) => p
    case Other(_) => 0
  }

  /** The branch-by-branch relation is exactly "same family, no narrower". */
  lemma EvolvesByWidth(a: DataType, b: DataType)
    ensures CanEvolveTo(a, b) <==> FamilyOf(a) == FamilyOf(b) && Width(a) <= Width(b)
  {
  }

  /** It is a partial order, and total inside a family, so histories of one column form a chain. */
  lemma EvolutionOrder(a: DataType, b: DataType, c: DataType)
    ensures CanEvolveTo(a, a)
    ensures CanEvolveTo(a, b) && CanEvolveTo(b, c) ==> CanEvolveTo(a, c)
    ensures CanEvolveTo(a, b) && CanEvolveTo(b, a) ==> a == b
    ensures CanEvolveTo(a, b) && CanEvolveTo(a, c) ==> CanEvolveTo(b, c) || CanEvolveTo(c, b)
  {
    EvolvesByWidth(a, b);
    EvolvesByWidth(b, c);
    EvolvesByWidth(a, c);
    EvolvesByWidth(c, b);
  }

  // ---------- stored values ----------

  const MILLIS_PER_DAY := 86_400_000

  function Pow(b: nat, e: nat): int {
    if e == 0 then 1 else b * Pow(b, e - 1)
  }

  lemma {:induction false} PowGrows(b: nat, e: nat, f: nat)
    requires 1 <= b && e <= f
    ensures 1 <= Pow(b, e) <= Pow(b, f)
    decreases f
  {
    if f == e {
      if e > 0 { PowGrows(b, e - 1, e - 1); PowPositive(b, e); }
    } else {
      PowGrows(b, e, f - 1);
      assert Pow(b, f) == b * Pow(b, f - 1) >= 1 * Pow(b, f - 1);
    }
  }

  lemma {:induction false} PowPositive(b: nat, e: nat)
    requires 1 <= b
    ensures 1 <= Pow(b, e)
  {
    if e > 0 {
      PowPositive(b, e - 1);
      assert b * Pow(b, e - 1) >= 1 * Pow(b, e - 1);
    }
  }

  /** Types whose values are integers in a range fixed by the type. */
  predicate IsExact(t: DataType) {
    !t.Float32? && !t.Float64? && !t.Timestamp? && !t.Other?
  }

  predicate InSigned(bits: nat, v: int) requires bits > 0 { -Pow(2, bits - 1) <= v < Pow(2, bits - 1) }

  /** v is a legal stored value of t: integers and dates by bit width, decimals by unscaled digits. */
  predicate Storable(t: DataType, v: int)
    requires IsExact(t)
  {
    match t
    case Int8 | Int16 | Int32 | Int64 | Date32 | Date64 => InSigned(Width(t), v)
    case UInt8 | UInt16 | UInt32 | UInt64 => 0 <= v < Pow(2, Width(t))
    case Decimal128(p, _) => -Pow(10, p) < v < Pow(10, p)
    case Decimal256(p, _) => -Pow(10, p) < v < Pow(10, p)
  }

  /** How a value stored under a is read under b: days become milliseconds, all else is unchanged. */
  function Widen(a: DataType, b: DataType, v: int): int {
    if a.Date32? && b.Date64? then v * MILLIS_PER_DAY else v
  }

  lemma DaysFitMillis(v: int)
    requires InSigned(32, v)
    ensures InSigned(64, v * MILLIS_PER_DAY)
  {
    PowSum(31, 32);
    assert Pow(2, 27) == 134_217_728 by {
      PowSum(13, 14);
      PowSum(6, 7); PowSum(7, 7);
      assert Pow(2, 3) == 8; PowSum(3, 3); PowSum(3, 4); assert Pow(2, 4) == 16;
    }
    PowGrows(2, 27, 32);
    assert MILLIS_PER_DAY <= Pow(2, 32);
    var p := Pow(2, 31);
    if v >= 0 {
      assert v * MILLIS_PER_DAY <= v * Pow(2, 32) < p * Pow(2, 32);
    } else {
      assert v * MILLIS_PER_DAY >= v * Pow(2, 32) >= -p * Pow(2, 32);
    }
  }

  lemma {:induction false} PowSum(m: nat, n: nat)
    ensures Pow(2, m + n) == Pow(2, m) * Pow(2, n)
    decreases m
  {
    if m > 0 {
      PowSum(m - 1, n);
      assert Pow(2, m + n) == 2 * Pow(2, m - 1 + n);
      assert Pow(2, m) == 2 * Pow(2, m - 1);
    }
  }

  /** An allowed evolution keeps every stored value representable and distinct from every other. */
  lemma WideningPreservesValues(a: DataType, b: DataType, v: int, w: int)
    requires CanEvolveTo(a, b) && IsExact(a) && Storable(a, v) && Storable(a, w)
    ensures IsExact(b) && Storable(b, Widen(a, b, v))
    ensures Widen(a, b, v) == Widen(a, b, w) ==> v == w
  {
    EvolvesByWidth(a, b);
    match FamilyOf(a)
    case Signed => PowGrows(2, Width(a) - 1, Width(b) - 1);
    case Unsigned => PowGrows(2, Width(a), Width(b));
    case Small(_) => PowGrows(10, Width(a), Width(b));
    case Large(_) => PowGrows(10, Width(a), Width(b));
    case Date => if a != b { DaysFitMillis(v); }
    case _ =>
  }

  /** The value after reading it through every type of a column's history in turn. */
  function WidenAlong(ts: seq<DataType>, v: int): int
    requires |ts| > 0
  {
    if |ts| == 1 then v else WidenAlong(ts[1..], Widen(ts[0], ts[1], v))
  }

  /** Any number of updates loses nothing: stepwise widening stays in range and agrees with
      widening once from the first type to the last. */
  lemma {:induction false} WideningAcrossHistory(ts: seq<DataType>, v: int)
    requires |ts| > 0 && IsExact(ts[0]) && Storable(ts[0], v)
    requires forall i :: 0 <= i < |ts| - 1 ==> CanEvolveTo(ts[i], ts[i + 1])
    ensures CanEvolveTo(ts[0], ts[|ts| - 1]) && IsExact(ts[|ts| - 1])
    ensures WidenAlong(ts, v) == Widen(ts[0], ts[|ts| - 1], v)
    ensures Storable(ts[|ts| - 1], WidenAlong(ts, v))
    decreases |ts|
  {
    var last := ts[|ts| - 1];
    if |ts| > 1 {
      WideningPreservesValues(ts[0], ts[1], v, v);
      assert forall i :: 0 <= i < |ts[1..]| - 1 ==> CanEvolveTo(ts[1..][i], ts[1..][i + 1]);
      WideningAcrossHistory(ts[1..], Widen(ts[0], ts[1], v));
      EvolutionOrder(ts[0], ts[1], last);
      assert ts[1..][|ts[1..]| - 1] == last;
    }
  }
}
