/** The declarations of a resource class that the core reads through
    reflection: its fields with their `@Id`, `@Index`, `@Indexes` and
    `@InjectBean` annotations, and its getter methods with `@Id` and
    `@Index`. */
module Declarations {
  import opened Wrappers
  import opened Values

  /** `@Index`: `order` defaults to 0, `unique` to false and `orderBy` to no
      entries. */
  datatype IndexAnno = IndexAnno(name: string, order: int, unique: bool, orderBy: seq<string>)

  /** `@Index(name = n)` with every other element left at its default. */
  function IndexNamed(name: string): (a: IndexAnno)
    ensures a.name == name && a.order == 0 && !a.unique && a.orderBy == []
  {
    IndexAnno(name, 0, false, [])
  }

  /** A declared field: `index` is its `@Index`, `indexes` the contents of its
      `@Indexes`, `inject` the reference named by its `@InjectBean`. */
  datatype FieldDecl = FieldDecl(
    name: string,
    fieldType: ValueType,
    isStatic: bool,
    isId: bool,
    index: Option<IndexAnno>,
    indexes: seq<IndexAnno>,
    inject: Option<string>)

  /** A declared getter method (no parameters) with its annotations. */
  datatype MethodDecl = MethodDecl(name: string, isId: bool, index: Option<IndexAnno>)

  /** A resource class: its qualified and simple names and its declared
      members in declaration order. */
  datatype ResourceClass = ResourceClass(
    name: string,
    simpleName: string,
    fields: seq<FieldDecl>,
    methods: seq<MethodDecl>)

  /** Java does not let a class declare two fields of one name. */
  predicate WellFormed(c: ResourceClass)
  {
    forall i, j :: 0 <= i < j < |c.fields| ==> c.fields[i].name != c.fields[j].name
  }

  /** The names `getDeclaredField` finds. */
  function DeclaredFieldNames(c: ResourceClass): (names: set<string>)
    ensures forall f :: f in c.fields ==> f.name in names
    ensures forall n :: n in names ==> exists f :: f in c.fields && f.name == n
  {
    set f | f in c.fields :: f.name
  }

  /** `getDeclaredField(name)`: the field of that name, if declared. */
  function FieldNamed(fields: seq<FieldDecl>, name: string): (r: Option<FieldDecl>)
    ensures r.Some? ==> r.value in fields && r.value.name == name
    ensures r.None? ==> forall f :: f in fields ==> f.name != name
  {
    if |fields| == 0 then None
    else if fields[0].name == name then Some(fields[0])
    else FieldNamed(fields[1..], name)
  }
}
