/** Attribute values and records. A record is the instance view a getter sees:
    declared fields under `FieldMember` and getter-method results under
    `MethodMember`; an attribute that is absent reads as `null`. */
module Values {
  import opened JavaStrings

  /** The declared Java type of a field: `int` (primitive), `Integer`, or
      `String`. */
  datatype ValueType = IntType(primitive: bool) | StrType

  datatype Value = Null | Int(i: int) | Str(s: string)

  /** Whether `v` may be stored in a field of type `t` (`Field.set` refuses
      `null` for a primitive and a value of the other kind). */
  predicate HasType(v: Value, t: ValueType)
  {
    match v
    case Null => !(t.IntType? && t.primitive)
    case Int(_) => t.IntType?
    case Str(_) => t.StrType?
  }

  /** The value a freshly constructed instance holds in a field of type `t`. */
  function Default(t: ValueType): (v: Value)
    ensures HasType(v, t)
  {
    if t.IntType? && t.primitive then Int(0) else Null
  }

  /** `String.valueOf`: `null` prints as "null". */
  function ToString(v: Value): string
  {
    match v
    case Null => "null"
    case Int(i) => IntToString(i)
    case Str(s) => s
  }

  /** `Comparable.compareTo` on two non-null values: `Integer.compareTo` gives
      -1, 0 or 1, `String.compareTo` the character difference. Values of
      different kinds (a `ClassCastException` in Java) are ordered integers
      first so that the order stays total. */
  function CompareTo(a: Value, b: Value): int
    requires a != Null && b != Null
  {
    match (a, b)
    case (Int(x), Int(y)) => if x < y then -1 else if x == y then 0 else 1
    case (Str(x), Str(y)) => JavaStrings.CompareTo(x, y)
    case (Int(_), Str(_)) => -1
    case (Str(_), Int(_)) => 1
  }

  /** `compareTo` on values is antisymmetric and zero exactly on equal values. */
  lemma {:induction false} CompareToAntisymmetric(a: Value, b: Value)
    requires a != Null && b != Null
    ensures CompareTo(a, b) == -CompareTo(b, a)
    ensures CompareTo(a, b) == 0 <==> a == b
  {
    if a.Str? && b.Str? {
      JavaStrings.CompareToAntisymmetric(a.s, b.s);
    }
  }

  /** `compareTo` on values is transitive, so with antisymmetry it orders
      the non-null values totally. */
  lemma {:induction false} CompareToTransitive(a: Value, b: Value, c: Value)
    requires a != Null && b != Null && c != Null
    requires CompareTo(a, b) <= 0 && CompareTo(b, c) <= 0
    ensures CompareTo(a, c) <= 0
  {
    CompareToAntisymmetric(a, b);
    CompareToAntisymmetric(b, c);
    if a.Str? && b.Str? && c.Str? && a != b && b != c {
      JavaStrings.CompareToTransitive(a.s, b.s, c.s);
    }
  }

  datatype Member = FieldMember(name: string) | MethodMember(name: string)

  type Record = map<Member, Value>

  /** Reads one attribute of a record (`Field.get` or `Method.invoke`). */
  function Read(r: Record, m: Member): Value
  {
    if m in r then r[m] else Null
  }
}
