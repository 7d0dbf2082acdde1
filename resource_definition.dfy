/** `ResourceDefinition`: where a resource class's data lives, in what
    format, and which of its fields receive injected references. */
module ResourceDefinition {
  import opened Wrappers
  import opened Declarations
  import JavaStrings

  /** `FormatDefinition`: the default location, the format name and the
      file suffix of one configured format. */
  datatype FormatDefinition = FormatDefinition(location: string, formatType: string, suffix: string)

  /** `InjectDefinition`: an `@InjectBean` field and the reference it names. */
  datatype InjectDefinition = InjectDefinition(field: string, isStatic: bool, reference: string)

  datatype Definition = Definition(
    clz: ResourceClass,
    location: string,
    format: string,
    injects: set<InjectDefinition>)

  /** The inject definition of an `@InjectBean` field. */
  function InjectOf(f: FieldDecl): InjectDefinition
    requires f.inject.Some?
  {
    InjectDefinition(f.name, f.isStatic, f.inject.value)
  }

  /** The `INJECT_FILTER` walk over the declared fields. */
  function InjectsOf(fields: seq<FieldDecl>): (r: set<InjectDefinition>)
    ensures forall f :: f in fields && f.inject.Some? ==> InjectOf(f) in r
    ensures forall d :: d in r ==> exists f :: f in fields && f.inject.Some? && d == InjectOf(f)
  {
    if |fields| == 0 then {}
    else
      var f := fields[0];
      (if f.inject.Some? then {InjectOf(f)} else {}) + InjectsOf(fields[1..])
  }

  /** The constructor: a non-blank `file` overrides the format's location;
      the format name comes from the format definition. */
  function New(clz: ResourceClass, format: FormatDefinition, file: Option<string>): (d: Definition)
    ensures d.clz == clz && d.format == format.formatType
    ensures file.Some? && !JavaStrings.IsBlank(file.value) ==> d.location == file.value
    ensures file.None? || JavaStrings.IsBlank(file.value) ==> d.location == format.location
    ensures forall f :: f in clz.fields && f.inject.Some? ==> InjectOf(f) in d.injects
    ensures forall x :: x in d.injects ==> exists f :: f in clz.fields && f.inject.Some? && x == InjectOf(f)
  {
    var location := if file.Some? && !JavaStrings.IsBlank(file.value) then file.value else format.location;
    Definition(clz, location, format.formatType, InjectsOf(clz.fields))
  }

  /** The injects into static fields. */
  function StaticOf(injects: set<InjectDefinition>): set<InjectDefinition>
  {
    set x | x in injects && x.isStatic
  }

  /** The injects into instance fields. */
  function InstanceOf(injects: set<InjectDefinition>): set<InjectDefinition>
  {
    set x | x in injects && !x.isStatic
  }

  /** `getStaticInjects`: a fresh set of the static injects. */
  method GetStaticInjects(d: Definition) returns (result: set<InjectDefinition>)
    ensures result == StaticOf(d.injects)
  {
    result := {};
    var remaining := d.injects;
    while remaining != {}
      invariant remaining <= d.injects
      invariant result == StaticOf(d.injects - remaining)
      decreases |remaining|
    {
      var x :| x in remaining;
      if x.isStatic {
        result := result + {x};
      }
      remaining := remaining - {x};
    }
  }

  /** `getInjects`: a fresh set of the instance injects. */
  method GetInjects(d: Definition) returns (result: set<InjectDefinition>)
    ensures result == InstanceOf(d.injects)
  {
    result := {};
    var remaining := d.injects;
    while remaining != {}
      invariant remaining <= d.injects
      invariant result == InstanceOf(d.injects - remaining)
      decreases |remaining|
    {
      var x :| x in remaining;
      if !x.isStatic {
        result := result + {x};
      }
      remaining := remaining - {x};
    }
  }

  /** Every inject is either static or not: the two getters split the
      injects between them. */
  lemma {:induction false} InjectsPartition(injects: set<InjectDefinition>)
    ensures StaticOf(injects) + InstanceOf(injects) == injects
    ensures StaticOf(injects) * InstanceOf(injects) == {}
  {
  }

  /** `isNeedValidate`: every definition is validated. */
  function IsNeedValidate(d: Definition): (r: bool)
    ensures r
  {
    true
  }
}
