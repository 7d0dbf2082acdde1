/** `StringComparator`: a null-aware comparator that orders any two objects
    by their `String.valueOf` text. */
module StringComparator {
  import opened Values
  import JavaStrings

  /** `compare(o1, o2)`; equal values compare as the same reference would,
      because `compareTo` of two equal texts is 0 as well. */
  function Compare(o1: Value, o2: Value): int
  {
    if o1 == o2 then 0
    else if o1 == Null then -1
    else if o2 == Null then 1
    else JavaStrings.CompareTo(ToString(o1), ToString(o2))
  }

  /** The comparator is antisymmetric. */
  lemma {:induction false} CompareAntisymmetric(a: Value, b: Value)
    ensures Compare(a, b) == -Compare(b, a)
  {
    if a != b && a != Null && b != Null {
      JavaStrings.CompareToAntisymmetric(ToString(a), ToString(b));
    }
  }

  /** Two values compare as 0 exactly when they are equal or are both
      non-null with the same text. */
  lemma {:induction false} CompareZero(a: Value, b: Value)
    ensures Compare(a, b) == 0 <==> (a == b || (a != Null && b != Null && ToString(a) == ToString(b)))
  {
    if a != b && a != Null && b != Null {
      JavaStrings.CompareToAntisymmetric(ToString(a), ToString(b));
    }
  }

  /** `null` sorts before everything else, from either side. */
  lemma {:induction false} NullFirst(b: Value)
    requires b != Null
    ensures Compare(Null, b) == -1 && Compare(b, Null) == 1
  {
  }

  /** Numbers compare by their text: a text that is a proper prefix of
      another compares below it, so 1 sorts before 10. */
  lemma {:induction false} ComparesByText(a: Value, b: Value)
    requires a != Null && b != Null && ToString(a) < ToString(b)
    ensures Compare(a, b) < 0
  {
    JavaStrings.CompareToPrefix(ToString(a), ToString(b));
  }

  /** Texts that differ first at position `k` are ordered by their
      characters there, so "12" sorts before "9". */
  lemma {:induction false} ComparesAtFirstDifference(a: Value, b: Value, k: nat)
    requires a != Null && b != Null
    requires k < |ToString(a)| && k < |ToString(b)|
    requires ToString(a)[..k] == ToString(b)[..k] && ToString(a)[k] < ToString(b)[k]
    ensures Compare(a, b) < 0
  {
    JavaStrings.CompareToFirstDifference(ToString(a), ToString(b), k);
  }
}
