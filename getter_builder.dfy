/** `GetterBuilder`: builds the identity getter and the index getters of a
    resource class from its declarations, and the '^'-joined index keys that
    both storing and looking up use. */
module GetterBuilder {
  import opened Wrappers
  import opened Values
  import opened Errors
  import opened Declarations
  import JavaStrings
  import FieldSortComparator
  import Sorting
  import Sequences

  // ---------------------------------------------------------------------
  // Index keys

  /** `String.valueOf` of each value, in order. */
  function Texts(values: seq<Value>): (r: seq<string>)
    ensures |r| == |values|
    ensures forall i :: 0 <= i < |values| ==> r[i] == ToString(values[i])
  {
    seq(|values|, i requires 0 <= i < |values| => ToString(values[i]))
  }

  /** `buildIndexKey(values...)`: a null or empty argument array gives "". */
  function BuildIndexKey(values: seq<Value>): string
  {
    JavaStrings.Join(Texts(values), "^")
  }

  /** The key is the texts of the values in argument order with '^' between
      neighbours. */
  lemma {:induction false} BuildIndexKeyShape(values: seq<Value>)
    ensures |values| == 0 ==> BuildIndexKey(values) == ""
    ensures |values| == 1 ==> BuildIndexKey(values) == ToString(values[0])
    ensures |values| >= 2 ==>
      BuildIndexKey(values) == ToString(values[0]) + "^" + BuildIndexKey(values[1..])
  {
    if |values| >= 2 {
      assert Texts(values)[1..] == Texts(values[1..]);
    }
  }

  /** Whether no value's text contains the '^' delimiter. */
  predicate DelimiterFree(values: seq<Value>)
  {
    forall i :: 0 <= i < |values| ==> '^' !in ToString(values[i])
  }

  /** On values whose texts do not contain '^', two non-empty value lists
      give the same key exactly when their texts agree position by
      position. */
  lemma {:induction false} BuildIndexKeyInjective(a: seq<Value>, b: seq<Value>)
    requires |a| >= 1 && |b| >= 1
    requires DelimiterFree(a) && DelimiterFree(b)
    ensures BuildIndexKey(a) == BuildIndexKey(b) <==> Texts(a) == Texts(b)
  {
    if BuildIndexKey(a) == BuildIndexKey(b) {
      JavaStrings.SplitAllJoin(Texts(a), '^');
      JavaStrings.SplitAllJoin(Texts(b), '^');
    }
  }

  /** A composite key is order-sensitive: swapping two parts whose texts
      differ changes the key. */
  lemma {:induction false} SwappedPartsChangeKey(x: Value, y: Value)
    requires ToString(x) != ToString(y)
    requires '^' !in ToString(x) && '^' !in ToString(y)
    ensures BuildIndexKey([x, y]) != BuildIndexKey([y, x])
  {
    BuildIndexKeyInjective([x, y], [y, x]);
    assert Texts([x, y])[0] != Texts([y, x])[0];
  }

  // ---------------------------------------------------------------------
  // Identity

  /** The identity getter: a `FieldGetter` or a `MethodGetter`. */
  datatype IdGetter = FieldId(field: string) | MethodId(getter: string)

  /** The fields annotated `@Id`, in declaration order. */
  function IdFields(fields: seq<FieldDecl>): (r: seq<FieldDecl>)
    ensures forall f :: f in r <==> f in fields && f.isId
    ensures |r| <= |fields|
  {
    if |fields| == 0 then []
    else (if fields[0].isId then [fields[0]] else []) + IdFields(fields[1..])
  }

  /** The getter methods annotated `@Id`, in declaration order. */
  function IdMethods(methods: seq<MethodDecl>): (r: seq<MethodDecl>)
    ensures forall m :: m in r <==> m in methods && m.isId
    ensures |r| <= |methods|
  {
    if |methods| == 0 then []
    else (if methods[0].isId then [methods[0]] else []) + IdMethods(methods[1..])
  }

  /** `createIdGetter` with the checks of `IdentityInfo`: exactly one
      identity declaration, a field one taking precedence over methods. */
  function CreateIdGetter(c: ResourceClass): (r: Result<IdGetter, Error>)
    ensures r.Ok? <==>
      |IdFields(c.fields)| == 1 || (|IdFields(c.fields)| == 0 && |IdMethods(c.methods)| == 1)
    ensures r.Ok? && r.value.FieldId? ==>
      exists f :: f in c.fields && f.isId && f.name == r.value.field
    ensures r.Ok? && r.value.MethodId? ==>
      (forall f :: f in c.fields ==> !f.isId) &&
      exists m :: m in c.methods && m.isId && m.name == r.value.getter
    ensures r.Err? ==> r.error == DuplicateIdField || r.error == DuplicateIdMethod || r.error == MissingId
  {
    var fields := IdFields(c.fields);
    if |fields| > 1 then Err(DuplicateIdField)
    else if |fields| == 1 then Ok(FieldId(fields[0].name))
    else
      var methods := IdMethods(c.methods);
      if |methods| > 1 then Err(DuplicateIdMethod)
      else if |methods| == 1 then Ok(MethodId(methods[0].name))
      else Err(MissingId)
  }

  /** A single `@Id` field is the identity whatever the methods declare. */
  lemma {:induction false} IdFieldTakesPrecedence(c: ResourceClass, f: FieldDecl)
    requires IdFields(c.fields) == [f]
    ensures CreateIdGetter(c) == Ok(FieldId(f.name))
  {
  }

  /** Which declarations make identity selection fail, and with what. */
  lemma {:induction false} IdentityErrors(c: ResourceClass)
    ensures |IdFields(c.fields)| > 1 ==> CreateIdGetter(c) == Err(DuplicateIdField)
    ensures |IdFields(c.fields)| == 0 && |IdMethods(c.methods)| > 1 ==>
      CreateIdGetter(c) == Err(DuplicateIdMethod)
    ensures |IdFields(c.fields)| == 0 && |IdMethods(c.methods)| == 0 ==>
      CreateIdGetter(c) == Err(MissingId)
  {
  }

  /** `getValue` of the identity getter: the field's value, or the key built
      from the method's result. A method identity is never null, so only a
      field identity can trip the null-identity check. */
  function Identity(g: IdGetter, r: Record): (v: Value)
    ensures g.MethodId? ==> v.Str? && v.s == ToString(Read(r, MethodMember(g.getter)))
  {
    match g
    case FieldId(f) => Read(r, FieldMember(f))
    case MethodId(m) => BuildIndexKeyOne(Read(r, MethodMember(m)))
  }

  /** `buildIndexKey(value)` as a string value. */
  function BuildIndexKeyOne(v: Value): (k: Value)
    ensures k == Str(ToString(v))
  {
    BuildIndexKeyShape([v]);
    Str(BuildIndexKey([v]))
  }

  // ---------------------------------------------------------------------
  // Index getters

  /** One part of a composite index: its declared order and its field. */
  datatype FieldInfo = FieldInfo(order: int, field: string)

  /** `FieldInfo.compareTo`: by declared order alone. */
  function CompareOrder(a: FieldInfo, b: FieldInfo): (r: int)
    ensures r == -1 || r == 0 || r == 1
    ensures r < 0 <==> a.order < b.order
    ensures r == 0 <==> a.order == b.order
  {
    if a.order < b.order then -1 else if a.order > b.order then 1 else 0
  }

  /** Where an index getter takes its key from. */
  datatype KeySource =
    | FieldKey(field: string)          // FieldIndexGetter
    | FieldsKey(parts: seq<FieldInfo>) // MultiFieldIndexGetter, parts in key order
    | MethodKey(getter: string)        // MethodIndexGetter

  datatype IndexGetter = IndexGetter(
    name: string,
    unique: bool,
    comparator: Option<FieldSortComparator.Comparator>,
    source: KeySource)

  /** `hasComparator()`. */
  predicate HasComparator(g: IndexGetter)
  {
    g.comparator.Some?
  }

  /** The values of the parts' fields, in part order. */
  function FieldValues(parts: seq<FieldInfo>, r: Record): (vs: seq<Value>)
    ensures |vs| == |parts|
    ensures forall i :: 0 <= i < |parts| ==> vs[i] == Read(r, FieldMember(parts[i].field))
  {
    seq(|parts|, i requires 0 <= i < |parts| => Read(r, FieldMember(parts[i].field)))
  }

  /** `MultiFieldIndexGetter.getValue`: a null record has a null key. */
  function CompositeKey(parts: seq<FieldInfo>, r: Option<Record>): (k: Option<string>)
    ensures k.None? <==> r.None?
  {
    match r
    case None => None
    case Some(rec) => Some(BuildIndexKey(FieldValues(parts, rec)))
  }

  /** `getValue` of an index getter: the key the record is filed under. */
  function IndexKey(g: IndexGetter, r: Record): string
  {
    match g.source
    case FieldKey(f) => BuildIndexKey([Read(r, FieldMember(f))])
    case FieldsKey(parts) => CompositeKey(parts, Some(r)).value
    case MethodKey(m) => BuildIndexKey([Read(r, MethodMember(m))])
  }

  /** Every getter's key is one value's text, or the '^'-join of the parts'
      values in part order. */
  lemma {:induction false} IndexKeyText(g: IndexGetter, r: Record)
    ensures g.source.FieldKey? ==> IndexKey(g, r) == ToString(Read(r, FieldMember(g.source.field)))
    ensures g.source.MethodKey? ==> IndexKey(g, r) == ToString(Read(r, MethodMember(g.source.getter)))
    ensures g.source.FieldsKey? && |g.source.parts| >= 2 ==>
      IndexKey(g, r) == ToString(Read(r, FieldMember(g.source.parts[0].field))) + "^" +
                        BuildIndexKey(FieldValues(g.source.parts[1..], r))
  {
    match g.source
    case FieldKey(f) => BuildIndexKeyShape([Read(r, FieldMember(f))]);
    case MethodKey(m) => BuildIndexKeyShape([Read(r, MethodMember(m))]);
    case FieldsKey(parts) =>
      BuildIndexKeyShape(FieldValues(parts, r));
      if |parts| >= 2 {
        assert FieldValues(parts, r)[1..] == FieldValues(parts[1..], r);
      }
  }

  /** The comparator an `orderBy` declares: none for an empty one. */
  function OptionalComparator(c: ResourceClass, orderBy: seq<string>)
    : (r: Result<Option<FieldSortComparator.Comparator>, Error>)
    ensures r.Ok? ==> (r.value.Some? <==> |orderBy| > 0)
    ensures r.Err? ==> |orderBy| > 0 && r.error == SortFieldMissing
  {
    if |orderBy| == 0 then Ok(None)
    else match FieldSortComparator.ComparatorFor(orderBy, DeclaredFieldNames(c))
      case Ok(cmp) => Ok(Some(cmp))
      case Err(e) => Err(e)
  }

  /** `AnnoInfo`: one `@Index` declaration and the field carrying it. */
  datatype AnnoInfo = AnnoInfo(index: IndexAnno, field: string)

  /** `new FieldIndexGetter(clz, annoInfo)`. */
  function FieldIndexGetter(c: ResourceClass, a: AnnoInfo): (r: Result<IndexGetter, Error>)
    ensures r.Ok? ==>
      r.value.name == a.index.name && r.value.unique == a.index.unique &&
      r.value.source == FieldKey(a.field) && (HasComparator(r.value) <==> |a.index.orderBy| > 0)
  {
    match OptionalComparator(c, a.index.orderBy)
    case Ok(cmp) => Ok(IndexGetter(a.index.name, a.index.unique, cmp, FieldKey(a.field)))
    case Err(e) => Err(e)
  }

  /** A getter method that carries `@Index`. */
  type IndexMethod = m: MethodDecl | m.index.Some? witness MethodDecl("", false, Some(IndexNamed("")))

  /** `new MethodIndexGetter(clz, method)`. */
  function MethodIndexGetter(c: ResourceClass, m: IndexMethod): (r: Result<IndexGetter, Error>)
    ensures r.Ok? ==>
      r.value.name == m.index.value.name && r.value.unique == m.index.value.unique &&
      r.value.source == MethodKey(m.name) && (HasComparator(r.value) <==> |m.index.value.orderBy| > 0)
  {
    match OptionalComparator(c, m.index.value.orderBy)
    case Ok(cmp) => Ok(IndexGetter(m.index.value.name, m.index.value.unique, cmp, MethodKey(m.name)))
    case Err(e) => Err(e)
  }

  // ---------------------------------------------------------------------
  // Composite index getters

  /** What the `MultiFieldIndexGetter` constructor's loop has gathered. */
  datatype MultiState = MultiState(
    name: Option<string>,
    unique: bool,
    infos: seq<FieldInfo>,
    comparator: Option<FieldSortComparator.Comparator>)

  /** One turn of the constructor's loop. */
  function MultiStep(c: ResourceClass, st: MultiState, a: AnnoInfo): Result<MultiState, Error>
  {
    if st.name.Some? && st.name.value != a.index.name then
      Err(IndexNameMismatch(st.name.value, a.index.name))
    else
      var next := MultiState(Some(a.index.name), a.index.unique,
                             st.infos + [FieldInfo(a.index.order, a.field)], st.comparator);
      if st.comparator.None? && |a.index.orderBy| > 0 then
        match FieldSortComparator.ComparatorFor(a.index.orderBy, DeclaredFieldNames(c))
        case Ok(cmp) => Ok(next.(comparator := Some(cmp)))
        case Err(e) => Err(e)
      else Ok(next)
  }

  /** The constructor's loop over `annos`. */
  function MultiScan(c: ResourceClass, annos: seq<AnnoInfo>): Result<MultiState, Error>
  {
    if |annos| == 0 then Ok(MultiState(None, false, [], None))
    else match MultiScan(c, annos[..|annos| - 1])
      case Err(e) => Err(e)
      case Ok(st) => MultiStep(c, st, annos[|annos| - 1])
  }

  /** The parts as declared, before sorting. */
  function Infos(annos: seq<AnnoInfo>): (r: seq<FieldInfo>)
    ensures |r| == |annos|
    ensures forall i :: 0 <= i < |annos| ==> r[i] == FieldInfo(annos[i].index.order, annos[i].field)
  {
    seq(|annos|, i requires 0 <= i < |annos| => FieldInfo(annos[i].index.order, annos[i].field))
  }

  /** The position of the first part that declares an `orderBy`, or -1. */
  function FirstOrdered(annos: seq<AnnoInfo>): (k: int)
    ensures -1 <= k < |annos|
    ensures k >= 0 ==> |annos[k].index.orderBy| > 0
    ensures forall j :: 0 <= j < |annos| && (k == -1 || j < k) ==> |annos[j].index.orderBy| == 0
  {
    if |annos| == 0 then -1
    else
      var k := FirstOrdered(annos[..|annos| - 1]);
      if k != -1 then k
      else if |annos[|annos| - 1].index.orderBy| > 0 then |annos| - 1
      else -1
  }

  /** The comparator the composite getter ends up with. */
  function FirstComparator(c: ResourceClass, annos: seq<AnnoInfo>)
    : (r: Result<Option<FieldSortComparator.Comparator>, Error>)
    ensures r.Ok? ==> (r.value.None? <==> FirstOrdered(annos) == -1)
  {
    var k := FirstOrdered(annos);
    if k == -1 then Ok(None)
    else OptionalComparator(c, annos[k].index.orderBy)
  }

  /** Whether every part carries the same index name. */
  predicate SameName(annos: seq<AnnoInfo>)
  {
    forall j :: 0 <= j < |annos| ==> annos[j].index.name == annos[0].index.name
  }

  /** What the constructor's loop computes, stated without the loop: the
      first name mismatch or comparator failure stops it; otherwise the
      name is the shared one, the unique flag the last part's, the
      comparator the first declared one, and the parts are all of them. */
  lemma {:induction false} MultiScanSpec(c: ResourceClass, annos: seq<AnnoInfo>)
    ensures MultiScan(c, annos).Ok? <==> SameName(annos) && FirstComparator(c, annos).Ok?
    ensures MultiScan(c, annos).Ok? ==>
      var st := MultiScan(c, annos).value;
      && (|annos| > 0 ==> st.name == Some(annos[0].index.name))
      && (|annos| > 0 ==> st.unique == annos[|annos| - 1].index.unique)
      && st.infos == Infos(annos)
      && st.comparator == FirstComparator(c, annos).value
    ensures MultiScan(c, annos).Err? && !SameName(annos) && FirstOrdered(annos) == -1 ==>
      MultiScan(c, annos).error.IndexNameMismatch?
  {
    if |annos| > 0 {
      var front := annos[..|annos| - 1];
      var a := annos[|annos| - 1];
      MultiScanSpec(c, front);
      FirstComparatorStep(c, annos);
      SameNameStep(annos);
      match MultiScan(c, front)
      case Err(e) =>
      case Ok(st) =>
        assert Infos(annos) == Infos(front) + [FieldInfo(a.index.order, a.field)];
        if |front| > 0 {
          assert front[0] == annos[0];
        }
    }
  }

  lemma {:induction false} FirstComparatorStep(c: ResourceClass, annos: seq<AnnoInfo>)
    requires |annos| > 0
    ensures var front := annos[..|annos| - 1];
      var a := annos[|annos| - 1];
      FirstComparator(c, annos) ==
        if FirstOrdered(front) != -1 then FirstComparator(c, front)
        else if |a.index.orderBy| > 0 then OptionalComparator(c, a.index.orderBy)
        else Ok(None)
  {
    var front := annos[..|annos| - 1];
    var kf := FirstOrdered(front);
    if kf != -1 {
      assert front[kf] == annos[kf];
    }
  }

  lemma {:induction false} SameNameStep(annos: seq<AnnoInfo>)
    requires |annos| > 0
    ensures var front := annos[..|annos| - 1];
      SameName(annos) <==>
        SameName(front) && (|front| == 0 || annos[|annos| - 1].index.name == front[0].index.name)
  {
    var front := annos[..|annos| - 1];
    assert forall j :: 0 <= j < |front| ==> front[j] == annos[j];
  }

  /** `new MultiFieldIndexGetter(clz, fields)`: the loop, then the stable
      sort of the parts by declared order. */
  function MultiFieldIndexGetter(c: ResourceClass, annos: seq<AnnoInfo>): (r: Result<IndexGetter, Error>)
    requires |annos| >= 1
  {
    match MultiScan(c, annos)
    case Err(e) => Err(e)
    case Ok(st) =>
      MultiScanSpec(c, annos);
      Ok(IndexGetter(st.name.value, st.unique, st.comparator,
                     FieldsKey(Sorting.Sort(st.infos, CompareOrder))))
  }

  /** The constructor, loop and all. */
  method NewMultiFieldIndexGetter(c: ResourceClass, annos: seq<AnnoInfo>) returns (r: Result<IndexGetter, Error>)
    requires |annos| >= 1
    ensures r == MultiFieldIndexGetter(c, annos)
  {
    var st := MultiState(None, false, [], None);
    var i := 0;
    while i < |annos|
      invariant 0 <= i <= |annos|
      invariant MultiScan(c, annos[..i]) == Ok(st)
    {
      assert annos[..i + 1][..i] == annos[..i];
      var a := annos[i];
      if st.name.Some? && st.name.value != a.index.name {
        MultiScanPrefixErr(c, annos, i + 1);
        return Err(IndexNameMismatch(st.name.value, a.index.name));
      }
      var comparator := st.comparator;
      if comparator.None? && |a.index.orderBy| > 0 {
        var cmp := FieldSortComparator.New(a.index.orderBy, DeclaredFieldNames(c));
        if cmp.Err? {
          MultiScanPrefixErr(c, annos, i + 1);
          return Err(cmp.error);
        }
        comparator := Some(cmp.value);
      }
      st := MultiState(Some(a.index.name), a.index.unique,
                       st.infos + [FieldInfo(a.index.order, a.field)], comparator);
      i := i + 1;
    }
    assert annos[..i] == annos;
    r := Ok(IndexGetter(st.name.value, st.unique, st.comparator,
                        FieldsKey(Sorting.Sort(st.infos, CompareOrder))));
  }

  /** A failure part way through is the constructor's failure. */
  lemma {:induction false} MultiScanPrefixErr(c: ResourceClass, annos: seq<AnnoInfo>, i: nat)
    requires i <= |annos| && MultiScan(c, annos[..i]).Err?
    ensures MultiScan(c, annos) == MultiScan(c, annos[..i])
    decreases |annos| - i
  {
    if i < |annos| {
      assert annos[..i + 1][..i] == annos[..i];
      MultiScanPrefixErr(c, annos, i + 1);
    } else {
      assert annos[..i] == annos;
    }
  }

  /** What a composite getter is: the parts' shared name, the last part's
      unique flag, the first declared comparator, and the parts sorted by
      ascending declared order. */
  lemma {:induction false} MultiFieldIndexGetterSpec(c: ResourceClass, annos: seq<AnnoInfo>)
    requires |annos| >= 1
    ensures MultiFieldIndexGetter(c, annos).Ok? <==> SameName(annos) && FirstComparator(c, annos).Ok?
    ensures !SameName(annos) && FirstOrdered(annos) == -1 ==>
      MultiFieldIndexGetter(c, annos).Err? && MultiFieldIndexGetter(c, annos).error.IndexNameMismatch?
    ensures MultiFieldIndexGetter(c, annos).Ok? ==>
      var g := MultiFieldIndexGetter(c, annos).value;
      && g.name == annos[0].index.name
      && g.unique == annos[|annos| - 1].index.unique
      && g.comparator == FirstComparator(c, annos).value
      && (HasComparator(g) <==> exists j :: 0 <= j < |annos| && |annos[j].index.orderBy| > 0)
      && g.source == FieldsKey(Sorting.Sort(Infos(annos), CompareOrder))
  {
    MultiScanSpec(c, annos);
    var k := FirstOrdered(annos);
    if k != -1 && FirstComparator(c, annos).Ok? {
      assert FirstComparator(c, annos).value.Some?;
    }
  }

  // Sorting the parts

  lemma {:induction false} CompareOrderAntisymmetric()
    ensures Sorting.Antisymmetric(CompareOrder)
  {
    forall a: FieldInfo, b: FieldInfo
      ensures CompareOrder(a, b) > 0 <==> CompareOrder(b, a) < 0
    {
    }
  }

  /** The parts declaring order `k`, in their relative order. */
  function WithOrder(s: seq<FieldInfo>, k: int): seq<FieldInfo>
  {
    if |s| == 0 then []
    else WithOrder(s[..|s| - 1], k) + (if s[|s| - 1].order == k then [s[|s| - 1]] else [])
  }

  lemma {:induction false} WithOrderAppend(s: seq<FieldInfo>, x: FieldInfo, k: int)
    ensures WithOrder(s + [x], k) == WithOrder(s, k) + (if x.order == k then [x] else [])
  {
    assert (s + [x])[..|s|] == s;
  }

  /** Insertion keeps the parts of each order in sequence, the new one last. */
  lemma {:induction false} InsertWithOrder(s: seq<FieldInfo>, x: FieldInfo, k: int)
    ensures WithOrder(Sorting.Insert(s, x, CompareOrder), k) ==
            WithOrder(s, k) + (if x.order == k then [x] else [])
  {
    if |s| == 0 {
      WithOrderAppend([], x, k);
    } else if CompareOrder(s[|s| - 1], x) > 0 {
      var front := s[..|s| - 1];
      var last := s[|s| - 1];
      InsertWithOrder(front, x, k);
      WithOrderAppend(Sorting.Insert(front, x, CompareOrder), last, k);
      WithOrderAppend(front, last, k);
      assert front + [last] == s;
    } else {
      WithOrderAppend(s, x, k);
    }
  }

  /** The sort is stable: parts that declare the same order keep their
      declaration order. */
  lemma {:induction false} SortWithOrder(s: seq<FieldInfo>, k: int)
    ensures WithOrder(Sorting.Sort(s, CompareOrder), k) == WithOrder(s, k)
  {
    if |s| > 0 {
      var front := s[..|s| - 1];
      SortWithOrder(front, k);
      InsertWithOrder(Sorting.Sort(front, CompareOrder), s[|s| - 1], k);
    }
  }

  /** The parts of a composite key are a stable, ascending reordering of the
      declared parts. */
  lemma {:induction false} SortedParts(s: seq<FieldInfo>)
    ensures var r := Sorting.Sort(s, CompareOrder);
      && multiset(r) == multiset(s)
      && (forall i :: 0 <= i < |r| - 1 ==> r[i].order <= r[i + 1].order)
      && (forall k :: WithOrder(r, k) == WithOrder(s, k))
  {
    CompareOrderAntisymmetric();
    Sorting.SortSorted(s, CompareOrder);
    forall k ensures WithOrder(Sorting.Sort(s, CompareOrder), k) == WithOrder(s, k) {
      SortWithOrder(s, k);
    }
  }

  // ---------------------------------------------------------------------
  // Grouping declarations by index name (getIndexAnnoMap)

  /** The `@Index` declarations on fields, in declaration order. */
  function FieldIndexAnnos(fields: seq<FieldDecl>): seq<AnnoInfo>
  {
    if |fields| == 0 then []
    else
      var f := fields[|fields| - 1];
      FieldIndexAnnos(fields[..|fields| - 1]) +
        (if f.index.Some? then [AnnoInfo(f.index.value, f.name)] else [])
  }

  /** The declarations inside one field's `@Indexes`. */
  function IndexesOf(f: FieldDecl): (r: seq<AnnoInfo>)
    ensures |r| == |f.indexes|
    ensures forall k :: 0 <= k < |r| ==> r[k] == AnnoInfo(f.indexes[k], f.name)
  {
    seq(|f.indexes|, k requires 0 <= k < |f.indexes| => AnnoInfo(f.indexes[k], f.name))
  }

  /** The `@Indexes` declarations, field by field. */
  function FieldIndexesAnnos(fields: seq<FieldDecl>): seq<AnnoInfo>
  {
    if |fields| == 0 then []
    else FieldIndexesAnnos(fields[..|fields| - 1]) + IndexesOf(fields[|fields| - 1])
  }

  lemma {:induction false} FieldIndexesAnnosStep(fields: seq<FieldDecl>, i: nat)
    requires i < |fields|
    ensures FieldIndexesAnnos(fields[..i + 1]) == FieldIndexesAnnos(fields[..i]) + IndexesOf(fields[i])
  {
    assert fields[..i + 1][..i] == fields[..i];
  }

  /** Every index declaration on a field, in the order they are grouped. */
  function AnnoList(c: ResourceClass): seq<AnnoInfo>
  {
    FieldIndexAnnos(c.fields) + FieldIndexesAnnos(c.fields)
  }

  /** Appends `a` to the list of its name, creating the list if absent. */
  function AddToGroup(m: map<string, seq<AnnoInfo>>, a: AnnoInfo): map<string, seq<AnnoInfo>>
  {
    m[a.index.name := (if a.index.name in m then m[a.index.name] else []) + [a]]
  }

  /** The index names declared in `s`. */
  function NameSet(s: seq<AnnoInfo>): (r: set<string>)
    ensures forall a :: a in s ==> a.index.name in r
  {
    if |s| == 0 then {}
    else
      assert forall a :: a in s ==> a in s[..|s| - 1] || a == s[|s| - 1];
      NameSet(s[..|s| - 1]) + {s[|s| - 1].index.name}
  }

  /** The declarations of `s` named `n`, in order. */
  function Named(s: seq<AnnoInfo>, n: string): (r: seq<AnnoInfo>)
    ensures forall a :: a in r ==> a.index.name == n
    ensures |r| == 0 <==> n !in NameSet(s)
  {
    if |s| == 0 then []
    else Named(s[..|s| - 1], n) + (if s[|s| - 1].index.name == n then [s[|s| - 1]] else [])
  }

  /** The map the grouping loops build from `s`: each name declared in `s`
      mapped to its declarations, in order. */
  function GroupAll(s: seq<AnnoInfo>): map<string, seq<AnnoInfo>>
  {
    if |s| == 0 then map[] else AddToGroup(GroupAll(s[..|s| - 1]), s[|s| - 1])
  }

  /** Grouping files each declaration under its own name, in order, and
      under no other name. */
  lemma {:induction false} GroupAllSpec(s: seq<AnnoInfo>)
    ensures forall n :: n in GroupAll(s) <==> n in NameSet(s)
    ensures forall n :: n in GroupAll(s) ==> GroupAll(s)[n] == Named(s, n)
  {
    if |s| > 0 {
      GroupAllSpec(s[..|s| - 1]);
    }
  }

  /** The names in `s`, each once, in order of first occurrence: the order
      in which the model visits the groups. */
  function FirstOccurrences(s: seq<AnnoInfo>): (r: seq<string>)
    ensures Distinct(r)
    ensures forall n :: n in r <==> n in NameSet(s)
  {
    if |s| == 0 then []
    else
      var front := FirstOccurrences(s[..|s| - 1]);
      if s[|s| - 1].index.name in front then front else front + [s[|s| - 1].index.name]
  }

  lemma {:induction false} GroupAllAppend(s: seq<AnnoInfo>, a: AnnoInfo)
    ensures GroupAll(s + [a]) == AddToGroup(GroupAll(s), a)
    ensures FirstOccurrences(s + [a]) ==
      if a.index.name in FirstOccurrences(s) then FirstOccurrences(s) else FirstOccurrences(s) + [a.index.name]
  {
    assert (s + [a])[..|s|] == s;
  }

  /** One `computeIfAbsent(name, ...).add(annoInfo)` on the grouping map,
      with the name recorded when it is new. */
  method AddAnno(groups: map<string, seq<AnnoInfo>>, order: seq<string>, ghost done: seq<AnnoInfo>, a: AnnoInfo)
    returns (groups': map<string, seq<AnnoInfo>>, order': seq<string>)
    requires groups == GroupAll(done) && order == FirstOccurrences(done)
    ensures groups' == GroupAll(done + [a]) && order' == FirstOccurrences(done + [a])
  {
    GroupAllAppend(done, a);
    GroupAllSpec(done);
    order' := if a.index.name in groups then order else order + [a.index.name];
    groups' := AddToGroup(groups, a);
  }

  /** The loop over the declarations of one `@Indexes`. */
  method AddAnnos(groups: map<string, seq<AnnoInfo>>, order: seq<string>, ghost done: seq<AnnoInfo>, annos: seq<AnnoInfo>)
    returns (groups': map<string, seq<AnnoInfo>>, order': seq<string>)
    requires groups == GroupAll(done) && order == FirstOccurrences(done)
    ensures groups' == GroupAll(done + annos) && order' == FirstOccurrences(done + annos)
  {
    groups', order' := groups, order;
    var k := 0;
    assert done + annos[..0] == done;
    while k < |annos|
      invariant 0 <= k <= |annos|
      invariant groups' == GroupAll(done + annos[..k])
      invariant order' == FirstOccurrences(done + annos[..k])
    {
      assert done + annos[..k + 1] == (done + annos[..k]) + [annos[k]];
      groups', order' := AddAnno(groups', order', done + annos[..k], annos[k]);
      k := k + 1;
    }
    assert annos[..k] == annos;
  }

  /** The grouping loop over the `@Index` fields. */
  method GroupIndexFields(fields: seq<FieldDecl>) returns (groups: map<string, seq<AnnoInfo>>, order: seq<string>)
    ensures groups == GroupAll(FieldIndexAnnos(fields))
    ensures order == FirstOccurrences(FieldIndexAnnos(fields))
  {
    groups, order := map[], [];
    var i := 0;
    while i < |fields|
      invariant 0 <= i <= |fields|
      invariant groups == GroupAll(FieldIndexAnnos(fields[..i]))
      invariant order == FirstOccurrences(FieldIndexAnnos(fields[..i]))
    {
      var f := fields[i];
      assert fields[..i + 1][..i] == fields[..i];
      if f.index.Some? {
        groups, order := AddAnno(groups, order, FieldIndexAnnos(fields[..i]), AnnoInfo(f.index.value, f.name));
      } else {
        assert FieldIndexAnnos(fields[..i]) + [] == FieldIndexAnnos(fields[..i]);
      }
      i := i + 1;
    }
    assert fields[..i] == fields;
  }

  /** The grouping loop over the `@Indexes` fields, continuing from the
      groups of the declarations `before`. */
  method GroupIndexesFields(fields: seq<FieldDecl>, groups: map<string, seq<AnnoInfo>>, order: seq<string>,
                            ghost before: seq<AnnoInfo>)
    returns (groups': map<string, seq<AnnoInfo>>, order': seq<string>)
    requires groups == GroupAll(before) && order == FirstOccurrences(before)
    ensures groups' == GroupAll(before + FieldIndexesAnnos(fields))
    ensures order' == FirstOccurrences(before + FieldIndexesAnnos(fields))
  {
    groups', order' := groups, order;
    var i := 0;
    ghost var done := before;
    assert fields[..0] == [];
    assert before + [] == before;
    while i < |fields|
      invariant 0 <= i <= |fields|
      invariant done == before + FieldIndexesAnnos(fields[..i])
      invariant groups' == GroupAll(done) && order' == FirstOccurrences(done)
    {
      groups', order' := AddAnnos(groups', order', done, IndexesOf(fields[i]));
      FieldIndexesAnnosStep(fields, i);
      Sequences.ConcatAssociative(before, FieldIndexesAnnos(fields[..i]), IndexesOf(fields[i]));
      done := done + IndexesOf(fields[i]);
      i := i + 1;
    }
    assert fields[..i] == fields;
  }

  /** `getIndexAnnoMap`: `@Index` fields first, then each `@Indexes`
      field's declarations. The order of the groups is the order of first
      occurrence of their names. */
  method GetIndexAnnoMap(c: ResourceClass) returns (groups: map<string, seq<AnnoInfo>>, order: seq<string>)
    ensures groups == GroupAll(AnnoList(c))
    ensures order == FirstOccurrences(AnnoList(c))
  {
    groups, order := GroupIndexFields(c.fields);
    groups, order := GroupIndexesFields(c.fields, groups, order, FieldIndexAnnos(c.fields));
  }

  // ---------------------------------------------------------------------
  // createIndexGetters

  /** A group of declarations sharing one name. */
  type Group = g: seq<AnnoInfo> | |g| >= 1 witness [AnnoInfo(IndexNamed(""), "")]

  /** The groups in the order they are visited. */
  function Groups(c: ResourceClass): (gs: seq<Group>)
    ensures |gs| == |FirstOccurrences(AnnoList(c))|
  {
    var s := AnnoList(c);
    GroupAllSpec(s);
    assert forall i :: 0 <= i < |FirstOccurrences(s)| ==> |GroupAll(s)[FirstOccurrences(s)[i]]| >= 1;
    seq(|FirstOccurrences(s)|, i requires 0 <= i < |FirstOccurrences(s)| => GroupAll(s)[FirstOccurrences(s)[i]])
  }

  /** A group of one gives a single-field getter, a larger group a composite
      one. */
  function GroupGetter(c: ResourceClass, g: Group): Result<IndexGetter, Error>
  {
    if |g| == 1 then FieldIndexGetter(c, g[0]) else MultiFieldIndexGetter(c, g)
  }

  /** The getter methods that carry `@Index`, in declaration order. */
  function IndexMethods(methods: seq<MethodDecl>): (r: seq<IndexMethod>)
    ensures forall m :: m in r <==> m in methods && m.index.Some?
  {
    if |methods| == 0 then []
    else
      var last := methods[|methods| - 1];
      IndexMethods(methods[..|methods| - 1]) + (if last.index.Some? then [last] else [])
  }

  /** The index names, in getter order. */
  function Names(getters: seq<IndexGetter>): (r: seq<string>)
    ensures |r| == |getters|
    ensures forall i :: 0 <= i < |getters| ==> r[i] == getters[i].name
  {
    seq(|getters|, i requires 0 <= i < |getters| => getters[i].name)
  }

  predicate Distinct(s: seq<string>)
  {
    forall i, j :: 0 <= i < j < |s| ==> s[i] != s[j]
  }

  /** The first name that repeats an earlier one. */
  function FirstDuplicate(s: seq<string>): (r: Option<string>)
    ensures r.None? <==> Distinct(s)
    ensures r.Some? ==> r.value in s
  {
    if |s| == 0 then None
    else
      var front := s[..|s| - 1];
      var d := FirstDuplicate(front);
      if d.Some? then d
      else if s[|s| - 1] in front then Some(s[|s| - 1])
      else
        assert forall i :: 0 <= i < |s| - 1 ==> s[i] == front[i];
        None
  }

  /** `GroupGetter` for the class `c`. */
  function GroupGetterOf(c: ResourceClass): Group -> Result<IndexGetter, Error>
  {
    (g: Group) => GroupGetter(c, g)
  }

  /** `MethodIndexGetter` for the class `c`. */
  function MethodGetterOf(c: ResourceClass): IndexMethod -> Result<IndexGetter, Error>
  {
    (m: IndexMethod) => MethodIndexGetter(c, m)
  }

  /** The getters of the field groups, in group order. */
  function FieldGetters(c: ResourceClass): (r: Result<seq<IndexGetter>, Error>)
    ensures r.Ok? ==> |r.value| == |FirstOccurrences(AnnoList(c))|
  {
    Sequences.MapAll(GroupGetterOf(c), Groups(c))
  }

  /** The getter of each group carries the group's name. */
  lemma {:induction false} FieldGettersNames(c: ResourceClass)
    ensures FieldGetters(c).Ok? ==>
      forall i :: 0 <= i < |FieldGetters(c).value| ==>
        FieldGetters(c).value[i].name == FirstOccurrences(AnnoList(c))[i]
  {
    var r := FieldGetters(c);
    if r.Ok? {
      GroupAllSpec(AnnoList(c));
      forall i | 0 <= i < |r.value| ensures r.value[i].name == FirstOccurrences(AnnoList(c))[i] {
        var g := Groups(c)[i];
        assert GroupGetterOf(c)(g) == Ok(r.value[i]);
        GroupGetterName(c, g, FirstOccurrences(AnnoList(c))[i]);
      }
    }
  }

  /** The getters of the `@Index` methods, in declaration order. */
  function MethodGetters(c: ResourceClass): (r: Result<seq<IndexGetter>, Error>)
    ensures r.Ok? ==> |r.value| == |IndexMethods(c.methods)|
    ensures r.Ok? ==> forall j :: 0 <= j < |r.value| ==> r.value[j].name == IndexMethods(c.methods)[j].index.value.name
  {
    Sequences.MapAll(MethodGetterOf(c), IndexMethods(c.methods))
  }

  /** `createIndexGetters`: a getter per group and per `@Index` method, then
      the check that no name occurs twice. */
  function IndexGetters(c: ResourceClass): Result<seq<IndexGetter>, Error>
  {
    var fromFields := FieldGetters(c);
    if fromFields.Err? then Err(fromFields.error)
    else
      var fromMethods := MethodGetters(c);
      if fromMethods.Err? then Err(fromMethods.error)
      else
        var all := fromFields.value + fromMethods.value;
        var dup := FirstDuplicate(Names(all));
        if dup.Some? then Err(DuplicateIndexName(dup.value)) else Ok(all)
  }

  /** The loop over the groups of `getIndexAnnoMap`. */
  method BuildFieldGetters(c: ResourceClass, groups: map<string, seq<AnnoInfo>>, order: seq<string>)
    returns (r: Result<seq<IndexGetter>, Error>)
    requires groups == GroupAll(AnnoList(c)) && order == FirstOccurrences(AnnoList(c))
    ensures r == FieldGetters(c)
  {
    ghost var gs := Groups(c);
    GroupAllSpec(AnnoList(c));
    var getters: seq<IndexGetter> := [];
    var i := 0;
    while i < |order|
      invariant 0 <= i <= |order|
      invariant Sequences.MapAll(GroupGetterOf(c), gs[..i]) == Ok(getters)
    {
      Sequences.MapAllStep(GroupGetterOf(c), gs, i);
      var fields: Group := groups[order[i]];
      assert fields == gs[i];
      var getter;
      if |fields| == 1 {
        getter := FieldIndexGetter(c, fields[0]);
      } else {
        getter := NewMultiFieldIndexGetter(c, fields);
      }
      if getter.Err? {
        Sequences.MapAllPrefixErr(GroupGetterOf(c), gs, i + 1);
        return Err(getter.error);
      }
      getters := getters + [getter.value];
      i := i + 1;
    }
    assert gs[..i] == gs;
    r := Ok(getters);
  }

  /** The loop over the `@Index` methods. */
  method BuildMethodGetters(c: ResourceClass) returns (r: Result<seq<IndexGetter>, Error>)
    ensures r == MethodGetters(c)
  {
    var methods := IndexMethods(c.methods);
    var getters: seq<IndexGetter> := [];
    var j := 0;
    while j < |methods|
      invariant 0 <= j <= |methods|
      invariant Sequences.MapAll(MethodGetterOf(c), methods[..j]) == Ok(getters)
    {
      Sequences.MapAllStep(MethodGetterOf(c), methods, j);
      var getter := MethodIndexGetter(c, methods[j]);
      if getter.Err? {
        Sequences.MapAllPrefixErr(MethodGetterOf(c), methods, j + 1);
        return Err(getter.error);
      }
      getters := getters + [getter.value];
      j := j + 1;
    }
    assert methods[..j] == methods;
    r := Ok(getters);
  }

  /** Filling the name map: the first name already present is refused. */
  method FindDuplicateName(getters: seq<IndexGetter>) returns (dup: Option<string>)
    ensures dup == FirstDuplicate(Names(getters))
  {
    var seen: set<string> := {};
    var k := 0;
    while k < |getters|
      invariant 0 <= k <= |getters|
      invariant seen == set n | n in Names(getters)[..k]
      invariant FirstDuplicate(Names(getters)[..k]).None?
    {
      var name := getters[k].name;
      assert Names(getters)[..k + 1][..k] == Names(getters)[..k];
      if name in seen {
        DuplicatePrefix(Names(getters), k + 1);
        return Some(name);
      }
      seen := seen + {name};
      k := k + 1;
    }
    assert Names(getters)[..k] == Names(getters);
    dup := None;
  }

  /** `createIndexGetters` itself. */
  method CreateIndexGetters(c: ResourceClass) returns (r: Result<seq<IndexGetter>, Error>)
    ensures r == IndexGetters(c)
  {
    var groups, order := GetIndexAnnoMap(c);
    var fromFields := BuildFieldGetters(c, groups, order);
    if fromFields.Err? {
      return Err(fromFields.error);
    }
    var fromMethods := BuildMethodGetters(c);
    if fromMethods.Err? {
      return Err(fromMethods.error);
    }
    var all := fromFields.value + fromMethods.value;
    var dup := FindDuplicateName(all);
    if dup.Some? {
      return Err(DuplicateIndexName(dup.value));
    }
    r := Ok(all);
  }

  /** A duplicate in a prefix is the first duplicate of the whole list. */
  lemma {:induction false} DuplicatePrefix(s: seq<string>, i: nat)
    requires i <= |s| && FirstDuplicate(s[..i]).Some?
    ensures FirstDuplicate(s) == FirstDuplicate(s[..i])
    decreases |s| - i
  {
    if i < |s| {
      assert s[..i + 1][..i] == s[..i];
      DuplicatePrefix(s, i + 1);
    } else {
      assert s[..i] == s;
    }
  }

  /** A successful `createIndexGetters` is the field getters followed by
      the method getters. */
  lemma {:induction false} IndexGettersOk(c: ResourceClass)
    requires IndexGetters(c).Ok?
    ensures FieldGetters(c).Ok? && MethodGetters(c).Ok?
    ensures IndexGetters(c).value == FieldGetters(c).value + MethodGetters(c).value
    ensures Distinct(Names(IndexGetters(c).value))
  {
  }

  /** Where a declared name sits among the field getters. */
  lemma {:induction false} FieldGetterPosition(c: ResourceClass, a: AnnoInfo) returns (i: nat)
    requires a in AnnoList(c) && FieldGetters(c).Ok?
    ensures i < |FieldGetters(c).value| && FieldGetters(c).value[i].name == a.index.name
  {
    var s := AnnoList(c);
    FieldGettersNames(c);
    assert a.index.name in FirstOccurrences(s);
    i :| 0 <= i < |FirstOccurrences(s)| && FirstOccurrences(s)[i] == a.index.name;
  }

  /** Where an `@Index` method sits among the method getters. */
  lemma {:induction false} MethodGetterPosition(c: ResourceClass, m: MethodDecl) returns (j: nat)
    requires m in c.methods && m.index.Some? && MethodGetters(c).Ok?
    ensures j < |MethodGetters(c).value| && MethodGetters(c).value[j].name == m.index.value.name
    ensures IndexMethods(c.methods)[j] == m
  {
    var ms := IndexMethods(c.methods);
    assert m in ms;
    j :| 0 <= j < |ms| && ms[j] == m;
  }

  /** The getters `createIndexGetters` returns carry distinct names, one per
      declared index name. */
  lemma {:induction false} IndexGettersSpec(c: ResourceClass)
    ensures IndexGetters(c).Ok? ==>
      var gs := IndexGetters(c).value;
      && Distinct(Names(gs))
      && (forall a :: a in AnnoList(c) ==> a.index.name in Names(gs))
      && (forall m :: m in c.methods && m.index.Some? ==> m.index.value.name in Names(gs))
  {
    if IndexGetters(c).Ok? {
      IndexGettersOk(c);
      var gs := IndexGetters(c).value;
      var ff := FieldGetters(c).value;
      forall a | a in AnnoList(c) ensures a.index.name in Names(gs) {
        var i := FieldGetterPosition(c, a);
        assert Names(gs)[i] == a.index.name;
      }
      forall m | m in c.methods && m.index.Some? ensures m.index.value.name in Names(gs) {
        var j := MethodGetterPosition(c, m);
        assert Names(gs)[|ff| + j] == m.index.value.name;
      }
    }
  }

  /** A field getter and a method getter with one name repeat a name. */
  lemma {:induction false} CrossClash(ff: seq<IndexGetter>, mm: seq<IndexGetter>, i: nat, j: nat)
    requires i < |ff| && j < |mm| && ff[i].name == mm[j].name
    ensures !Distinct(Names(ff + mm))
  {
    assert (ff + mm)[i] == ff[i];
    assert (ff + mm)[|ff| + j] == mm[j];
    assert Names(ff + mm)[i] == Names(ff + mm)[|ff| + j];
  }

  /** Two method getters with one name repeat a name. */
  lemma {:induction false} TailClash(ff: seq<IndexGetter>, mm: seq<IndexGetter>, j: nat, k: nat)
    requires j < k < |mm| && mm[j].name == mm[k].name
    ensures !Distinct(Names(ff + mm))
  {
    assert (ff + mm)[|ff| + j] == mm[j];
    assert (ff + mm)[|ff| + k] == mm[k];
    assert Names(ff + mm)[|ff| + j] == Names(ff + mm)[|ff| + k];
  }

  /** An `@Index` method whose name a field index also declares is
      refused. */
  lemma {:induction false} FieldClashRefused(c: ResourceClass, m: MethodDecl, a: AnnoInfo)
    requires m in c.methods && m.index.Some?
    requires a in AnnoList(c) && a.index.name == m.index.value.name
    ensures IndexGetters(c).Err?
  {
    if FieldGetters(c).Ok? && MethodGetters(c).Ok? {
      var i := FieldGetterPosition(c, a);
      var j := MethodGetterPosition(c, m);
      CrossClash(FieldGetters(c).value, MethodGetters(c).value, i, j);
    }
  }

  /** Two distinct `@Index` methods declaring one name are refused. */
  lemma {:induction false} MethodClashRefused(c: ResourceClass, m: MethodDecl, m2: MethodDecl)
    requires m in c.methods && m.index.Some?
    requires m2 in c.methods && m2 != m && m2.index.Some? && m2.index.value.name == m.index.value.name
    ensures IndexGetters(c).Err?
  {
    if FieldGetters(c).Ok? && MethodGetters(c).Ok? {
      var j := MethodGetterPosition(c, m);
      var k := MethodGetterPosition(c, m2);
      if k < j {
        TailClash(FieldGetters(c).value, MethodGetters(c).value, k, j);
      } else {
        TailClash(FieldGetters(c).value, MethodGetters(c).value, j, k);
      }
    }
  }

  /** A name declared by two `@Index` methods, or by a method and a field,
      is refused. */
  lemma {:induction false} DuplicateNamesRefused(c: ResourceClass, m: MethodDecl)
    requires m in c.methods && m.index.Some?
    requires (exists a :: a in AnnoList(c) && a.index.name == m.index.value.name) ||
             (exists m2 :: m2 in c.methods && m2 != m && m2.index.Some? && m2.index.value.name == m.index.value.name)
    ensures IndexGetters(c).Err?
  {
    if exists a :: a in AnnoList(c) && a.index.name == m.index.value.name {
      var a :| a in AnnoList(c) && a.index.name == m.index.value.name;
      FieldClashRefused(c, m, a);
    } else {
      var m2 :| m2 in c.methods && m2 != m && m2.index.Some? && m2.index.value.name == m.index.value.name;
      MethodClashRefused(c, m, m2);
    }
  }

  /** A group's getter carries the group's name. */
  lemma {:induction false} GroupGetterName(c: ResourceClass, g: Group, n: string)
    requires forall a :: a in g ==> a.index.name == n
    requires GroupGetter(c, g).Ok?
    ensures GroupGetter(c, g).value.name == n
  {
    if |g| > 1 {
      MultiFieldIndexGetterSpec(c, g);
    }
  }
}
