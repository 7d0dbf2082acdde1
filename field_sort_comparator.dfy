/** `FieldSortComparator`: a comparator over records built from an index's
    `orderBy` entries such as "level desc". */
module FieldSortComparator {
  import opened Wrappers
  import opened Values
  import opened Errors
  import opened FieldSortType
  import JavaStrings
  import Sorting

  /** One sort key: the field it reads and its direction. */
  datatype SortInfo = SortInfo(field: string, sortType: SortType)

  /** `sortInfos` stays null when `orderBy` is empty. */
  datatype Comparator = Comparator(sortInfos: Option<seq<SortInfo>>)

  /** The two words of an `orderBy` entry split on a single space, when there
      are exactly two. */
  function SortKey(entry: string): (r: Option<(string, string)>)
    ensures r.Some? <==> |JavaStrings.Split(entry, ' ')| == 2
    ensures r.Some? ==> ' ' !in r.value.0
  {
    var parts := JavaStrings.Split(entry, ' ');
    if |parts| == 2 then
      assert ' ' !in parts[0] by {
        if ' ' in entry {
          assert parts[0] == JavaStrings.SplitAll(entry, ' ')[0];
        }
      }
      Some((parts[0], parts[1]))
    else None
  }

  /** The sort keys of `orderBy`, taken in declared order: entries without two
      words are skipped, and the first two-word entry naming a field the class
      does not declare is a `NoSuchFieldException`. */
  function SortInfosOf(orderBy: seq<string>, declared: set<string>): (r: Result<seq<SortInfo>, Error>)
    ensures r.Err? ==> r.error == SortFieldMissing
    ensures r.Ok? ==> |r.value| <= |orderBy|
    ensures r.Ok? ==> forall i :: 0 <= i < |r.value| ==> r.value[i].field in declared
  {
    if |orderBy| == 0 then Ok([])
    else
      var rest := SortInfosOf(orderBy[1..], declared);
      var key := SortKey(orderBy[0]);
      if key.None? then rest
      else if key.value.0 !in declared then Err(SortFieldMissing)
      else if rest.Err? then rest
      else Ok([SortInfo(key.value.0, ValueFrom(key.value.1))] + rest.value)
  }

  /** What the constructor builds: no sort keys at all for an empty `orderBy`. */
  function ComparatorFor(orderBy: seq<string>, declared: set<string>): Result<Comparator, Error>
  {
    if |orderBy| == 0 then Ok(Comparator(None))
    else match SortInfosOf(orderBy, declared)
      case Ok(infos) => Ok(Comparator(Some(infos)))
      case Err(e) => Err(e)
  }

  /** The constructor: fills `sortInfos` entry by entry. */
  method New(orderBy: seq<string>, declared: set<string>) returns (r: Result<Comparator, Error>)
    ensures r == ComparatorFor(orderBy, declared)
  {
    if |orderBy| == 0 {
      return Ok(Comparator(None));
    }
    var sortInfos: seq<SortInfo> := [];
    var i := 0;
    while i < |orderBy|
      invariant 0 <= i <= |orderBy|
      invariant SortInfosOf(orderBy[..i], declared) == Ok(sortInfos)
    {
      SortInfosAppend(orderBy[..i], [orderBy[i]], declared);
      assert orderBy[..i + 1] == orderBy[..i] + [orderBy[i]];
      SortInfosSingle(orderBy[i], declared);
      var key := SortKey(orderBy[i]);
      if key.Some? {
        var name := key.value.0;
        if name !in declared {
          SortInfosAppend(orderBy[..i + 1], orderBy[i + 1..], declared);
          assert orderBy[..i + 1] + orderBy[i + 1..] == orderBy;
          return Err(SortFieldMissing);
        }
        sortInfos := sortInfos + [SortInfo(name, ValueFrom(key.value.1))];
      } else {
        assert sortInfos + [] == sortInfos;
      }
      i := i + 1;
    }
    assert orderBy[..i] == orderBy;
    r := Ok(Comparator(Some(sortInfos)));
  }

  /** Entries are processed independently and in order: the keys of two
      lists are the keys of each, and the first failure wins. */
  lemma {:induction false} SortInfosAppend(a: seq<string>, b: seq<string>, declared: set<string>)
    ensures SortInfosOf(a + b, declared) ==
      match SortInfosOf(a, declared)
      case Err(e) => Err(e)
      case Ok(x) => match SortInfosOf(b, declared)
        case Err(e) => Err(e)
        case Ok(y) => Ok(x + y)
  {
    if |a| > 0 {
      assert (a + b)[0] == a[0];
      assert (a + b)[1..] == a[1..] + b;
      SortInfosAppend(a[1..], b, declared);
      var ra := SortInfosOf(a[1..], declared);
      var rb := SortInfosOf(b, declared);
      if SortKey(a[0]).Some? && ra.Ok? && rb.Ok? {
        var info := SortInfo(SortKey(a[0]).value.0, ValueFrom(SortKey(a[0]).value.1));
        assert [info] + (ra.value + rb.value) == ([info] + ra.value) + rb.value;
      }
    } else {
      assert a + b == b;
      if SortInfosOf(b, declared).Ok? {
        assert [] + SortInfosOf(b, declared).value == SortInfosOf(b, declared).value;
      }
    }
  }

  lemma {:induction false} SortInfosSingle(entry: string, declared: set<string>)
    ensures SortInfosOf([entry], declared) ==
      var key := SortKey(entry);
      if key.None? then Ok([])
      else if key.value.0 in declared then Ok([SortInfo(key.value.0, ValueFrom(key.value.1))])
      else Err(SortFieldMissing)
  {
    assert [entry][1..] == [];
    assert [entry][0] == entry;
    assert SortInfosOf([], declared) == Ok([]);
    var key := SortKey(entry);
    if key.Some? {
      var info := SortInfo(key.value.0, ValueFrom(key.value.1));
      assert [info] + [] == [info];
    }
  }

  /** Construction fails exactly when a two-word entry names an undeclared
      field. */
  lemma {:induction false} SortInfosOk(orderBy: seq<string>, declared: set<string>)
    ensures SortInfosOf(orderBy, declared).Ok? <==>
      forall i :: 0 <= i < |orderBy| && SortKey(orderBy[i]).Some? ==> SortKey(orderBy[i]).value.0 in declared
  {
    if |orderBy| > 0 {
      SortInfosOk(orderBy[1..], declared);
      assert forall i :: 1 <= i < |orderBy| ==> orderBy[i] == orderBy[1..][i - 1];
    }
  }

  /** Sort keys in declared order: the first key on which the records
      differ decides, scaled by its direction; a null value sorts first. */
  function CompareKeys(infos: seq<SortInfo>, r1: Record, r2: Record): int
  {
    if |infos| == 0 then 0
    else
      var info := infos[0];
      var f1 := Read(r1, FieldMember(info.field));
      var f2 := Read(r2, FieldMember(info.field));
      if f1 == f2 then CompareKeys(infos[1..], r1, r2)
      else if f1 == Null then Of(info.sortType, -1)
      else if f2 == Null then Of(info.sortType, 1)
      else
        var c := CompareTo(f1, f2);
        if c != 0 then Of(info.sortType, c) else CompareKeys(infos[1..], r1, r2)
  }

  /** `compare(o1, o2)` with the second null test that line 76 evidently
      intends; no sort keys compare everything as equal. */
  function Compare(c: Comparator, r1: Record, r2: Record): int
  {
    match c.sortInfos
    case None => 0
    case Some(infos) => CompareKeys(infos, r1, r2)
  }

  /** `compare` as written: line 76 tests `field1` a second time, so a null
      second value reaches `field1.compareTo(null)`, a NullPointerException. */
  function CompareKeysAsWritten(infos: seq<SortInfo>, r1: Record, r2: Record): Result<int, Error>
  {
    if |infos| == 0 then Ok(0)
    else
      var info := infos[0];
      var f1 := Read(r1, FieldMember(info.field));
      var f2 := Read(r2, FieldMember(info.field));
      if f1 == f2 then CompareKeysAsWritten(infos[1..], r1, r2)
      else if f1 == Null then Ok(Of(info.sortType, -1))
      else if f2 == Null then Err(NullPointer)
      else
        var c := CompareTo(f1, f2);
        if c != 0 then Ok(Of(info.sortType, c)) else CompareKeysAsWritten(infos[1..], r1, r2)
  }

  function CompareAsWritten(c: Comparator, r1: Record, r2: Record): Result<int, Error>
  {
    match c.sortInfos
    case None => Ok(0)
    case Some(infos) => CompareKeysAsWritten(infos, r1, r2)
  }

  /** The corrected comparator is antisymmetric. */
  lemma {:induction false} CompareKeysAntisymmetric(infos: seq<SortInfo>, a: Record, b: Record)
    ensures CompareKeys(infos, a, b) == -CompareKeys(infos, b, a)
  {
    if |infos| > 0 {
      var f1 := Read(a, FieldMember(infos[0].field));
      var f2 := Read(b, FieldMember(infos[0].field));
      CompareKeysAntisymmetric(infos[1..], a, b);
      if f1 != Null && f2 != Null {
        CompareToAntisymmetric(f1, f2);
      }
    }
  }

  lemma {:induction false} CompareAntisymmetric(c: Comparator, a: Record, b: Record)
    ensures Compare(c, a, b) == -Compare(c, b, a)
  {
    if c.sortInfos.Some? {
      CompareKeysAntisymmetric(c.sortInfos.value, a, b);
    }
  }

  /** Two records compare as 0 exactly when they agree on every sort key. */
  lemma {:induction false} CompareKeysZero(infos: seq<SortInfo>, a: Record, b: Record)
    ensures CompareKeys(infos, a, b) == 0 <==>
      forall i :: 0 <= i < |infos| ==> Read(a, FieldMember(infos[i].field)) == Read(b, FieldMember(infos[i].field))
  {
    if |infos| > 0 {
      var f1 := Read(a, FieldMember(infos[0].field));
      var f2 := Read(b, FieldMember(infos[0].field));
      CompareKeysZero(infos[1..], a, b);
      assert forall i :: 1 <= i < |infos| ==> infos[i] == infos[1..][i - 1];
      if f1 != Null && f2 != Null {
        CompareToAntisymmetric(f1, f2);
      }
    }
  }

  /** One key's comparison before its direction applies: null first, then
      `compareTo`. */
  function KeyCompare(v1: Value, v2: Value): int
  {
    if v1 == v2 then 0
    else if v1 == Null then -1
    else if v2 == Null then 1
    else CompareTo(v1, v2)
  }

  lemma {:induction false} KeyCompareAntisymmetric(x: Value, y: Value)
    ensures KeyCompare(x, y) == -KeyCompare(y, x)
    ensures KeyCompare(x, y) == 0 <==> x == y
  {
    if x != Null && y != Null {
      CompareToAntisymmetric(x, y);
    }
  }

  lemma {:induction false} KeyCompareTransitive(x: Value, y: Value, z: Value)
    requires KeyCompare(x, y) < 0 && KeyCompare(y, z) < 0
    ensures KeyCompare(x, z) < 0
  {
    KeyCompareAntisymmetric(x, y);
    KeyCompareAntisymmetric(y, z);
    KeyCompareAntisymmetric(x, z);
    if x != Null && y != Null && z != Null {
      CompareToTransitive(x, y, z);
    }
  }

  /** The first key decides unless the records agree on it. */
  lemma {:induction false} CompareKeysStep(infos: seq<SortInfo>, a: Record, b: Record)
    requires |infos| > 0
    ensures var k := KeyCompare(Read(a, FieldMember(infos[0].field)), Read(b, FieldMember(infos[0].field)));
      CompareKeys(infos, a, b) == if k != 0 then Of(infos[0].sortType, k) else CompareKeys(infos[1..], a, b)
  {
    var f1 := Read(a, FieldMember(infos[0].field));
    var f2 := Read(b, FieldMember(infos[0].field));
    KeyCompareAntisymmetric(f1, f2);
  }

  /** The corrected comparator is transitive: with antisymmetry, records are
      ordered totally up to agreement on every key. */
  lemma {:induction false} CompareKeysTransitive(infos: seq<SortInfo>, a: Record, b: Record, c: Record)
    requires CompareKeys(infos, a, b) <= 0 && CompareKeys(infos, b, c) <= 0
    ensures CompareKeys(infos, a, c) <= 0
  {
    if |infos| > 0 {
      var field := FieldMember(infos[0].field);
      var va, vb, vc := Read(a, field), Read(b, field), Read(c, field);
      CompareKeysStep(infos, a, b);
      CompareKeysStep(infos, b, c);
      CompareKeysStep(infos, a, c);
      KeyCompareAntisymmetric(va, vb);
      KeyCompareAntisymmetric(vb, vc);
      KeyCompareAntisymmetric(va, vc);
      var k1, k2 := KeyCompare(va, vb), KeyCompare(vb, vc);
      if k1 == 0 && k2 == 0 {
        CompareKeysTransitive(infos[1..], a, b, c);
      } else if k1 != 0 && k2 != 0 {
        if infos[0].sortType == Asc {
          KeyCompareTransitive(va, vb, vc);
        } else {
          KeyCompareTransitive(vc, vb, va);
        }
      }
    }
  }

  /** Where the code as written returns a value, it is the corrected one: the
      correction only replaces the NullPointerException. */
  lemma {:induction false} AsWrittenAgrees(infos: seq<SortInfo>, a: Record, b: Record)
    ensures CompareKeysAsWritten(infos, a, b).Ok? ==> CompareKeysAsWritten(infos, a, b).value == CompareKeys(infos, a, b)
  {
    if |infos| > 0 {
      AsWrittenAgrees(infos[1..], a, b);
    }
  }

  /** The discrepancy: with one key "level asc", a record with level 1 against
      one without a level throws, while the reverse order returns -1. */
  lemma {:induction false} AsWrittenThrowsOnNullSecond()
    ensures var c := Comparator(Some([SortInfo("level", Asc)]));
      var withLevel: Record := map[FieldMember("level") := Int(1)];
      var withoutLevel: Record := map[];
      && CompareAsWritten(c, withLevel, withoutLevel) == Err(NullPointer)
      && CompareAsWritten(c, withoutLevel, withLevel) == Ok(-1)
      && Compare(c, withLevel, withoutLevel) == 1
  {
  }

  /** The comparator as a function, for sorting. */
  function AsFunction(c: Comparator): (Record, Record) -> int
  {
    (a: Record, b: Record) => Compare(c, a, b)
  }

  lemma {:induction false} AsFunctionAntisymmetric(c: Comparator)
    ensures Sorting.Antisymmetric(AsFunction(c))
  {
    forall a: Record, b: Record
      ensures AsFunction(c)(a, b) > 0 <==> AsFunction(c)(b, a) < 0
    {
      CompareAntisymmetric(c, a, b);
    }
  }

  lemma {:induction false} AsFunctionTransitive(c: Comparator)
    ensures Sorting.Transitive(AsFunction(c))
  {
    forall a: Record, b: Record, d: Record
      | AsFunction(c)(a, b) <= 0 && AsFunction(c)(b, d) <= 0
      ensures AsFunction(c)(a, d) <= 0
    {
      if c.sortInfos.Some? {
        CompareKeysTransitive(c.sortInfos.value, a, b, d);
      }
    }
  }
}
