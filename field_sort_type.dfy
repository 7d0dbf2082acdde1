/** The `FieldSortType` enum: a sort direction with its keyword and sign. */
module FieldSortType {

  datatype SortType = Asc | Desc

  /** `FieldSortType.values()`, in declaration order. */
  const Constants: seq<SortType> := [Asc, Desc]

  /** `getType`: the keyword the direction is written with. */
  function TypeName(t: SortType): string
  {
    match t
    case Asc => "asc"
    case Desc => "desc"
  }

  /** The sign the direction scales a comparison by. */
  function Sign(t: SortType): int
  {
    match t
    case Asc => 1
    case Desc => -1
  }

  /** The loop of `valueFrom` over `candidates`: the first whose keyword is
      exactly `s`, otherwise `Asc`. */
  function Lookup(s: string, candidates: seq<SortType>): (r: SortType)
    ensures r in candidates || r == Asc
    ensures (forall t :: t in candidates ==> TypeName(t) != s) ==> r == Asc
  {
    if |candidates| == 0 then Asc
    else if TypeName(candidates[0]) == s then candidates[0]
    else Lookup(s, candidates[1..])
  }

  /** `valueFrom`: case-sensitive keyword lookup that falls back to `Asc`. */
  function ValueFrom(s: string): (r: SortType)
    ensures r == Desc <==> s == "desc"
    ensures r == Asc <==> s != "desc"
  {
    assert Constants[1..] == [Desc] && [Desc][1..] == [];
    assert Lookup(s, [Desc]) == if s == "desc" then Desc else Lookup(s, []);
    Lookup(s, Constants)
  }

  /** `of(v)`: scales a comparison by the direction's sign. */
  function Of(t: SortType, v: int): (r: int)
    ensures t == Asc ==> r == v
    ensures t == Desc ==> r == -v
  {
    Sign(t) * v
  }

  /** Round trip: each constant is found again from its keyword. */
  lemma {:induction false} ValueFromTypeName(t: SortType)
    ensures ValueFrom(TypeName(t)) == t
  {
  }

  /** Scaling twice by the same direction is the identity. */
  lemma {:induction false} OfInvolution(t: SortType, v: int)
    ensures Of(t, Of(t, v)) == v
  {
  }

  /** Any keyword other than the exact lower-case ones means ascending. */
  lemma {:induction false} ValueFromFallback()
    ensures ValueFrom("DESC") == Asc && ValueFrom("") == Asc && ValueFrom("Desc") == Asc
  {
  }
}
