/** `Storage`: the indexed in-memory store of one resource class. Records
    are kept by identity, in unique indexes (key to record) and in list
    indexes (key to the records filed under it, in load order or sorted by
    the index's comparator). */
module Storage {
  import opened Wrappers
  import opened Values
  import opened Errors
  import opened GetterBuilder
  import ResourceDefinition
  import FieldSortComparator
  import Sorting
  import Maps

  /** The three stores: the records by identity (`values`), the unique
      indexes (`uniques`) and the list indexes (`indexs`), each index by
      name and then by key. */
  datatype Tables = Tables(
    values: map<Value, Record>,
    uniques: map<string, map<string, Record>>,
    indexs: map<string, map<string, seq<Record>>>)

  /** What `clear()` leaves. */
  const Cleared := Tables(map[], map[], map[])

  /** The data validator: the violation message of a record, or `None`
      when it passes (a validator that throws is logged and passes). */
  type Validator = Record -> Option<string>

  /** The list filed under `key` in the list index `name`; an absent index
      or key reads as the empty list. */
  function ListOf(t: Tables, name: string, key: string): seq<Record>
  {
    if name in t.indexs && key in t.indexs[name] then t.indexs[name][key] else []
  }

  /** The record filed under `key` in the unique index `name`. */
  function UniqueOf(t: Tables, name: string, key: string): Option<Record>
  {
    if name in t.uniques && key in t.uniques[name] then Some(t.uniques[name][key]) else None
  }

  /** The stores after a step, and the exception that ended it, if any. */
  datatype Filed = Filed(tables: Tables, error: Option<Error>)

  // ---------------------------------------------------------------------
  // put

  /** One getter's part of `put`. A unique index that already holds the key
      has it replaced by the new record, and then the step fails. */
  function IndexOne(t: Tables, g: IndexGetter, r: Record): Filed
  {
    var key := IndexKey(g, r);
    if g.unique then
      var index := if g.name in t.uniques then t.uniques[g.name] else map[];
      var error := if key in index then Some(DuplicateUniqueKey(g.name, key)) else None;
      Filed(t.(uniques := t.uniques[g.name := index[key := r]]), error)
    else
      var index := if g.name in t.indexs then t.indexs[g.name] else map[];
      var list := if key in index then index[key] else [];
      Filed(t.(indexs := t.indexs[g.name := index[key := list + [r]]]), None)
  }

  /** The loop of `put` over the index getters, stopping at the first
      failure. */
  function IndexAll(t: Tables, getters: seq<IndexGetter>, r: Record): Filed
  {
    if |getters| == 0 then Filed(t, None)
    else
      var front := IndexAll(t, getters[..|getters| - 1], r);
      if front.error.Some? then front else IndexOne(front.tables, getters[|getters| - 1], r)
  }

  /** What `put` leaves and returns: `Ok(true)` when an earlier record had
      the same identity (it is replaced). A missing identifier or getter
      table is a `NullPointerException`. */
  datatype Stored = Stored(tables: Tables, result: Result<bool, Error>)

  function PutOutcome(t: Tables, identifier: Option<IdGetter>, getters: Option<seq<IndexGetter>>, r: Record): Stored
  {
    if identifier.None? then Stored(t, Err(NullPointer))
    else
      var key := Identity(identifier.value, r);
      if key == Null then Stored(t, Err(NullIdentity))
      else
        var placed := t.(values := t.values[key := r]);
        if getters.None? then Stored(placed, Err(NullPointer))
        else
          var filed := IndexAll(placed, getters.value, r);
          if filed.error.Some? then Stored(filed.tables, Err(filed.error.value))
          else Stored(filed.tables, Ok(key in t.values))
  }

  /** The list indexes only grow by names of list getters, the unique ones
      by names of unique getters. */
  ghost predicate Owned(t: Tables, getters: seq<IndexGetter>)
  {
    && (forall n :: n in t.indexs ==> exists g :: g in getters && !g.unique && g.name == n)
    && (forall n :: n in t.uniques ==> exists g :: g in getters && g.unique && g.name == n)
  }

  /** One getter files the record under its key and touches no other
      index. */
  lemma {:induction false} IndexOneSpec(t: Tables, g: IndexGetter, r: Record)
    ensures var f := IndexOne(t, g, r);
      && f.tables.values == t.values
      && (f.error.Some? <==> g.unique && UniqueOf(t, g.name, IndexKey(g, r)).Some?)
      && (f.error.Some? ==> f.error.value == DuplicateUniqueKey(g.name, IndexKey(g, r)))
      && f.tables.indexs.Keys == t.indexs.Keys + (if g.unique then {} else {g.name})
      && f.tables.uniques.Keys == t.uniques.Keys + (if g.unique then {g.name} else {})
      && (forall n, k :: n != g.name ==> ListOf(f.tables, n, k) == ListOf(t, n, k))
      && (forall n, k :: n != g.name ==> UniqueOf(f.tables, n, k) == UniqueOf(t, n, k))
      && (forall k :: ListOf(f.tables, g.name, k) ==
            ListOf(t, g.name, k) + (if !g.unique && k == IndexKey(g, r) then [r] else []))
      && (forall k :: UniqueOf(f.tables, g.name, k) ==
            if g.unique && k == IndexKey(g, r) then Some(r) else UniqueOf(t, g.name, k))
  {
    if g.unique {
      IndexOneUnique(t, g, r);
    } else {
      IndexOneList(t, g, r);
    }
  }

  /** `IndexOneSpec` for a unique getter. */
  lemma {:induction false} IndexOneUnique(t: Tables, g: IndexGetter, r: Record)
    requires g.unique
    ensures var f := IndexOne(t, g, r);
      && f.tables.values == t.values && f.tables.indexs == t.indexs
      && (f.error.Some? <==> UniqueOf(t, g.name, IndexKey(g, r)).Some?)
      && (f.error.Some? ==> f.error.value == DuplicateUniqueKey(g.name, IndexKey(g, r)))
      && f.tables.uniques.Keys == t.uniques.Keys + {g.name}
      && (forall n, k :: n != g.name ==> UniqueOf(f.tables, n, k) == UniqueOf(t, n, k))
      && (forall k :: UniqueOf(f.tables, g.name, k) ==
            if k == IndexKey(g, r) then Some(r) else UniqueOf(t, g.name, k))
  {
  }

  /** `IndexOneSpec` for a list getter. */
  lemma {:induction false} IndexOneList(t: Tables, g: IndexGetter, r: Record)
    requires !g.unique
    ensures var f := IndexOne(t, g, r);
      && f.tables.values == t.values && f.tables.uniques == t.uniques && f.error.None?
      && f.tables.indexs.Keys == t.indexs.Keys + {g.name}
      && (forall n, k :: n != g.name ==> ListOf(f.tables, n, k) == ListOf(t, n, k))
      && (forall k :: ListOf(f.tables, g.name, k) ==
            ListOf(t, g.name, k) + (if k == IndexKey(g, r) then [r] else []))
  {
    var f := IndexOne(t, g, r);
    forall k ensures ListOf(f.tables, g.name, k) ==
      ListOf(t, g.name, k) + (if k == IndexKey(g, r) then [r] else [])
    {
      if k != IndexKey(g, r) {
        assert ListOf(t, g.name, k) + [] == ListOf(t, g.name, k);
      }
    }
  }

  /** The front of a list of distinct names is distinct and lacks the last
      name. */
  lemma {:induction false} DistinctFront(getters: seq<IndexGetter>)
    requires |getters| > 0 && Distinct(Names(getters))
    ensures Distinct(Names(getters[..|getters| - 1]))
    ensures forall g :: g in getters[..|getters| - 1] ==> g.name != getters[|getters| - 1].name
  {
    var front := getters[..|getters| - 1];
    forall g | g in front ensures g.name != getters[|getters| - 1].name {
      var i :| 0 <= i < |front| && front[i] == g;
      assert Names(getters)[i] == g.name;
    }
  }

  /** `put`'s loop leaves the records by identity and every index of
      another name as they were, and adds index names only of its getters. */
  lemma {:induction false} IndexAllFrame(t: Tables, getters: seq<IndexGetter>, r: Record)
    ensures var f := IndexAll(t, getters, r);
      && f.tables.values == t.values
      && (forall n, k :: n !in Names(getters) ==> ListOf(f.tables, n, k) == ListOf(t, n, k))
      && (forall n, k :: n !in Names(getters) ==> UniqueOf(f.tables, n, k) == UniqueOf(t, n, k))
      && f.tables.indexs.Keys <= t.indexs.Keys + (set g | g in getters && !g.unique :: g.name)
      && f.tables.uniques.Keys <= t.uniques.Keys + (set g | g in getters && g.unique :: g.name)
  {
    if |getters| > 0 {
      var front := getters[..|getters| - 1];
      var last := getters[|getters| - 1];
      IndexAllFrame(t, front, r);
      var m := IndexAll(t, front, r);
      assert forall g :: g in getters <==> g in front || g == last;
      assert forall n :: n in Names(getters) <==> n in Names(front) || n == last.name;
      if m.error.None? {
        IndexOneSpec(m.tables, last, r);
      }
    }
  }

  /** `put`'s loop over getters with distinct names fails exactly when a
      unique index already holds the record's key, and then that index
      holds the new record. */
  lemma {:induction false} IndexAllErr(t: Tables, getters: seq<IndexGetter>, r: Record)
    requires Distinct(Names(getters))
    ensures var f := IndexAll(t, getters, r);
      && (f.error.None? <==> forall g :: g in getters && g.unique ==> UniqueOf(t, g.name, IndexKey(g, r)).None?)
      && (f.error.Some? ==>
            exists g :: (g in getters && g.unique &&
              f.error.value == DuplicateUniqueKey(g.name, IndexKey(g, r)) &&
              UniqueOf(t, g.name, IndexKey(g, r)).Some? && UniqueOf(f.tables, g.name, IndexKey(g, r)) == Some(r)))
  {
    if |getters| > 0 {
      var front := getters[..|getters| - 1];
      var last := getters[|getters| - 1];
      DistinctFront(getters);
      IndexAllErr(t, front, r);
      IndexAllFrame(t, front, r);
      var m := IndexAll(t, front, r);
      assert forall g :: g in getters <==> g in front || g == last;
      if m.error.None? {
        IndexOneSpec(m.tables, last, r);
        assert last.name !in Names(front);
      }
    }
  }

  /** When `put`'s loop succeeds, every list index has gained the record at
      the end of its key's list and every unique index maps its key to it. */
  lemma {:induction false} IndexAllOk(t: Tables, getters: seq<IndexGetter>, r: Record)
    requires Distinct(Names(getters))
    requires IndexAll(t, getters, r).error.None?
    ensures var f := IndexAll(t, getters, r);
      && (forall g, k :: g in getters ==>
            ListOf(f.tables, g.name, k) == ListOf(t, g.name, k) + (if !g.unique && k == IndexKey(g, r) then [r] else []))
      && (forall g, k :: g in getters ==>
            UniqueOf(f.tables, g.name, k) == if g.unique && k == IndexKey(g, r) then Some(r) else UniqueOf(t, g.name, k))
  {
    if |getters| > 0 {
      var front := getters[..|getters| - 1];
      var last := getters[|getters| - 1];
      DistinctFront(getters);
      IndexAllOk(t, front, r);
      IndexAllFrame(t, front, r);
      var m := IndexAll(t, front, r);
      IndexOneSpec(m.tables, last, r);
      assert last.name !in Names(front);
      assert forall g :: g in getters <==> g in front || g == last;
    }
  }

  /** What `put` does when it succeeds: the record is under its identity,
      every list index gains it at the end of its key's list, every unique
      index maps its key to it; an earlier record with the same identity is
      reported, not refused. */
  lemma {:induction false} PutSpec(t: Tables, identifier: IdGetter, getters: seq<IndexGetter>, r: Record)
    requires Distinct(Names(getters))
    ensures var s := PutOutcome(t, Some(identifier), Some(getters), r);
      var key := Identity(identifier, r);
      && (s.result.Ok? <==>
            key != Null && forall g :: g in getters && g.unique ==> UniqueOf(t, g.name, IndexKey(g, r)).None?)
      && (key == Null ==> s == Stored(t, Err(NullIdentity)))
      && (s.result.Ok? ==> s.result.value == (key in t.values))
      && (key != Null ==> s.tables.values == t.values[key := r])
      && (s.result.Ok? ==> forall g, k :: g in getters ==>
            ListOf(s.tables, g.name, k) == ListOf(t, g.name, k) + (if !g.unique && k == IndexKey(g, r) then [r] else []))
      && (s.result.Ok? ==> forall g, k :: g in getters ==>
            UniqueOf(s.tables, g.name, k) == if g.unique && k == IndexKey(g, r) then Some(r) else UniqueOf(t, g.name, k))
  {
    var key := Identity(identifier, r);
    if key != Null {
      var placed := t.(values := t.values[key := r]);
      IndexAllFrame(placed, getters, r);
      IndexAllErr(placed, getters, r);
      if IndexAll(placed, getters, r).error.None? {
        IndexAllOk(placed, getters, r);
      }
      assert forall n, k :: ListOf(placed, n, k) == ListOf(t, n, k) && UniqueOf(placed, n, k) == UniqueOf(t, n, k);
    }
  }

  // ---------------------------------------------------------------------
  // reload

  /** One pass of `reload`'s record loop: validate, then `put`; a record
      that replaced an earlier one is refused after it was filed. */
  function Admit(t: Tables, identifier: Option<IdGetter>, getters: Option<seq<IndexGetter>>,
                 validate: Validator, r: Record): Filed
  {
    match validate(r)
    case Some(message) =>
      Filed(t, Some(if identifier.None? then NullPointer else ValidationFailed(Identity(identifier.value, r), message)))
    case None =>
      var stored := PutOutcome(t, identifier, getters, r);
      match stored.result
      case Err(e) => Filed(stored.tables, Some(e))
      case Ok(replaced) => Filed(stored.tables, if replaced then Some(DuplicateIdentity) else None)
  }

  /** `reload`'s record loop, stopping at the first failure with the
      stores as they are at that point. */
  function Load(t: Tables, identifier: Option<IdGetter>, getters: Option<seq<IndexGetter>>,
                validate: Validator, records: seq<Record>): Filed
  {
    if |records| == 0 then Filed(t, None)
    else
      var front := Load(t, identifier, getters, validate, records[..|records| - 1]);
      if front.error.Some? then front
      else Admit(front.tables, identifier, getters, validate, records[|records| - 1])
  }

  /** The getter with the given name (`indexGetters.get(name)`). */
  function GetterNamed(getters: seq<IndexGetter>, name: string): (g: Option<IndexGetter>)
    ensures g.Some? ==> g.value in getters && g.value.name == name
    ensures g.None? ==> forall h :: h in getters ==> h.name != name
  {
    if |getters| == 0 then None
    else if getters[0].name == name then Some(getters[0])
    else GetterNamed(getters[1..], name)
  }

  /** With distinct names, a getter is found by its own name. */
  lemma {:induction false} GetterNamedDistinct(getters: seq<IndexGetter>, g: IndexGetter)
    requires Distinct(Names(getters)) && g in getters
    ensures GetterNamed(getters, g.name) == Some(g)
  {
    var h := GetterNamed(getters, g.name).value;
    var i :| 0 <= i < |getters| && getters[i] == g;
    var j :| 0 <= j < |getters| && getters[j] == h;
    assert Names(getters)[i] == Names(getters)[j];
  }

  /** A list as the getter leaves it: sorted by its comparator when it has
      one (`Collections.sort`), otherwise in load order. */
  function SortList(list: seq<Record>, g: Option<IndexGetter>): seq<Record>
  {
    if g.Some? && HasComparator(g.value) then
      Sorting.Sort(list, FieldSortComparator.AsFunction(g.value.comparator.value))
    else list
  }

  /** One list index with every list sorted as its getter says. */
  function SortIndex(index: map<string, seq<Record>>, g: Option<IndexGetter>): map<string, seq<Record>>
  {
    map k | k in index :: SortList(index[k], g)
  }

  /** The sorting pass at the end of `reload`. */
  function SortIndexes(t: Tables, getters: Option<seq<IndexGetter>>): Tables
  {
    t.(indexs := SortedIndexs(t.indexs, if getters.Some? then getters.value else []))
  }

  /** Every list index sorted as the getter of its name says. */
  function SortedIndexs(indexs: map<string, map<string, seq<Record>>>, getters: seq<IndexGetter>)
    : map<string, map<string, seq<Record>>>
  {
    map n | n in indexs :: SortIndex(indexs[n], GetterNamed(getters, n))
  }

  /** `reload`: nothing changes until the file is read and decoded; then
      the stores are cleared and the records loaded; the lists are sorted
      only when every record was accepted. `files` maps a location to what
      the reader decodes from the file there; a location missing from it
      cannot be opened. */
  function Reloaded(t: Tables, initialized: bool, location: string, identifier: Option<IdGetter>,
                    getters: Option<seq<IndexGetter>>, validate: Validator,
                    files: map<string, Result<seq<Record>, Error>>): (f: Filed)
    ensures !initialized ==> f == Filed(t, Some(NotInitialized))
    ensures initialized && location !in files ==> f == Filed(t, Some(ResourceFileMissing(location)))
    ensures initialized && location in files && files[location].Err? ==> f == Filed(t, Some(files[location].error))
  {
    if !initialized then Filed(t, Some(NotInitialized))
    else if location !in files then Filed(t, Some(ResourceFileMissing(location)))
    else match files[location]
      case Err(e) => Filed(t, Some(e))
      case Ok(records) =>
        var loaded := Load(Cleared, identifier, getters, validate, records);
        if loaded.error.Some? then loaded else Filed(SortIndexes(loaded.tables, getters), None)
  }

  /** What `initialize` leaves in a storage that holds `t` and is not yet
      initialized: the getters are built from the class, then the first
      reload runs; a failure to build a getter keeps `t`. */
  function Initialized(t: Tables, def: ResourceDefinition.Definition, validate: Validator,
                       files: map<string, Result<seq<Record>, Error>>): (f: Filed)
    ensures CreateIdGetter(def.clz).Err? ==> f == Filed(t, Some(CreateIdGetter(def.clz).error))
    ensures CreateIdGetter(def.clz).Ok? && IndexGetters(def.clz).Err? ==> f == Filed(t, Some(IndexGetters(def.clz).error))
  {
    match CreateIdGetter(def.clz)
    case Err(e) => Filed(t, Some(e))
    case Ok(id) =>
      match IndexGetters(def.clz)
      case Err(e) => Filed(t, Some(e))
      case Ok(getters) => Reloaded(t, true, def.location, Some(id), Some(getters), validate, files)
  }

  /** Reloading the same file again after a completed reload leaves the
      stores as they are: the stores are cleared before every load. */
  lemma {:induction false} ReloadedAgain(t: Tables, location: string, identifier: Option<IdGetter>,
                                         getters: Option<seq<IndexGetter>>, validate: Validator,
                                         files: map<string, Result<seq<Record>, Error>>)
    requires Reloaded(t, true, location, identifier, getters, validate, files).error.None?
    ensures var f := Reloaded(t, true, location, identifier, getters, validate, files);
      Reloaded(f.tables, true, location, identifier, getters, validate, files) == f
  {
    assert location in files && files[location].Ok?;
  }

  /** A reload right after an `initialize` that completed leaves the
      stores as that first load did. */
  lemma {:induction false} ReloadAfterInitialized(t: Tables, def: ResourceDefinition.Definition, validate: Validator,
                                                  files: map<string, Result<seq<Record>, Error>>)
    requires Initialized(t, def, validate, files).error.None?
    ensures CreateIdGetter(def.clz).Ok? && IndexGetters(def.clz).Ok?
    ensures var f := Initialized(t, def, validate, files);
      Reloaded(f.tables, true, def.location, Some(CreateIdGetter(def.clz).value),
               Some(IndexGetters(def.clz).value), validate, files) == f
  {
    ReloadedAgain(t, def.location, Some(CreateIdGetter(def.clz).value), Some(IndexGetters(def.clz).value),
                  validate, files);
  }

  // ---------------------------------------------------------------------
  // What a completed reload leaves

  /** The records of `records` whose key for `g` is `key`, in order. */
  function Matching(g: IndexGetter, records: seq<Record>, key: string): (r: seq<Record>)
    ensures forall x :: x in r <==> x in records && IndexKey(g, x) == key
  {
    if |records| == 0 then []
    else
      var last := records[|records| - 1];
      assert forall x :: x in records <==> x in records[..|records| - 1] || x == last;
      Matching(g, records[..|records| - 1], key) + (if IndexKey(g, last) == key then [last] else [])
  }

  /** The stores hold exactly `records`: each under its identity, in every
      unique index under its key, and the list index of each key is the
      records with that key in load order. */
  ghost predicate Consistent(t: Tables, identifier: IdGetter, getters: seq<IndexGetter>, records: seq<Record>)
  {
    && (forall r :: r in records ==> Identity(identifier, r) in t.values && t.values[Identity(identifier, r)] == r)
    && (forall key :: key in t.values ==> t.values[key] in records && key == Identity(identifier, t.values[key]))
    && (forall g, r :: g in getters && g.unique && r in records ==> UniqueOf(t, g.name, IndexKey(g, r)) == Some(r))
    && (forall g, k :: g in getters && g.unique && UniqueOf(t, g.name, k).Some? ==>
          UniqueOf(t, g.name, k).value in records && IndexKey(g, UniqueOf(t, g.name, k).value) == k)
    && (forall g, k :: g in getters && !g.unique ==> ListOf(t, g.name, k) == Matching(g, records, k))
    && Owned(t, getters)
  }

  /** A record `reload` accepts passed validation, had a fresh identity and
      a fresh key in every unique index, and was filed by `put` under all
      of them; the stores gain index names only of the getters. */
  lemma {:induction false} AdmitAccepted(t: Tables, identifier: IdGetter, getters: seq<IndexGetter>, validate: Validator,
                                         r: Record)
    requires Distinct(Names(getters))
    requires Admit(t, Some(identifier), Some(getters), validate, r).error.None?
    ensures validate(r).None? && Identity(identifier, r) != Null && Identity(identifier, r) !in t.values
    ensures forall g :: g in getters && g.unique ==> UniqueOf(t, g.name, IndexKey(g, r)).None?
    ensures var s := Admit(t, Some(identifier), Some(getters), validate, r).tables;
      && s.values == t.values[Identity(identifier, r) := r]
      && (forall g, k :: g in getters ==>
            ListOf(s, g.name, k) == ListOf(t, g.name, k) + (if !g.unique && k == IndexKey(g, r) then [r] else []))
      && (forall g, k :: g in getters ==>
            UniqueOf(s, g.name, k) == if g.unique && k == IndexKey(g, r) then Some(r) else UniqueOf(t, g.name, k))
      && s.indexs.Keys <= t.indexs.Keys + (set g | g in getters && !g.unique :: g.name)
      && s.uniques.Keys <= t.uniques.Keys + (set g | g in getters && g.unique :: g.name)
  {
    var key := Identity(identifier, r);
    PutSpec(t, identifier, getters, r);
    var placed := t.(values := t.values[key := r]);
    IndexAllFrame(placed, getters, r);
  }

  /** Appending a record to the list of its key keeps every list index
      equal to the matching records. */
  lemma {:induction false} AdmitKeepsLists(s: Tables, t: Tables, getters: seq<IndexGetter>, front: seq<Record>, r: Record)
    requires forall g, k :: g in getters && !g.unique ==> ListOf(t, g.name, k) == Matching(g, front, k)
    requires forall g, k :: g in getters ==>
      ListOf(s, g.name, k) == ListOf(t, g.name, k) + (if !g.unique && k == IndexKey(g, r) then [r] else [])
    ensures forall g, k :: g in getters && !g.unique ==> ListOf(s, g.name, k) == Matching(g, front + [r], k)
  {
    var records := front + [r];
    assert records[..|records| - 1] == front;
  }

  /** A record with a fresh key in every unique index keeps each earlier
      record under its key and adds itself under its own. */
  lemma {:induction false} AdmitKeepsUniques(s: Tables, t: Tables, getters: seq<IndexGetter>, front: seq<Record>, r: Record)
    requires forall g, x :: g in getters && g.unique && x in front ==> UniqueOf(t, g.name, IndexKey(g, x)) == Some(x)
    requires forall g :: g in getters && g.unique ==> UniqueOf(t, g.name, IndexKey(g, r)).None?
    requires forall g, k :: g in getters && g.unique && UniqueOf(t, g.name, k).Some? ==>
      UniqueOf(t, g.name, k).value in front && IndexKey(g, UniqueOf(t, g.name, k).value) == k
    requires forall g, k :: g in getters ==>
      UniqueOf(s, g.name, k) == if g.unique && k == IndexKey(g, r) then Some(r) else UniqueOf(t, g.name, k)
    ensures forall g, x :: g in getters && g.unique && x in front + [r] ==> UniqueOf(s, g.name, IndexKey(g, x)) == Some(x)
    ensures forall g, k :: g in getters && g.unique && UniqueOf(s, g.name, k).Some? ==>
      UniqueOf(s, g.name, k).value in front + [r] && IndexKey(g, UniqueOf(s, g.name, k).value) == k
  {
    forall g, x | g in getters && g.unique && x in front + [r]
      ensures UniqueOf(s, g.name, IndexKey(g, x)) == Some(x)
    {
      if x != r {
        assert x in front;
      }
    }
  }

  /** A record with a fresh identity keeps each earlier record under its
      identity and adds itself under its own. */
  lemma {:induction false} AdmitKeepsValues(sv: map<Value, Record>, tv: map<Value, Record>, identifier: IdGetter,
                                            front: seq<Record>, r: Record)
    requires forall x :: x in front ==> Identity(identifier, x) in tv && tv[Identity(identifier, x)] == x
    requires forall key :: key in tv ==> tv[key] in front && key == Identity(identifier, tv[key])
    requires Identity(identifier, r) !in tv && sv == tv[Identity(identifier, r) := r]
    ensures forall x :: x in front + [r] ==> Identity(identifier, x) in sv && sv[Identity(identifier, x)] == x
    ensures forall key :: key in sv ==> sv[key] in front + [r] && key == Identity(identifier, sv[key])
  {
    forall x | x in front + [r]
      ensures Identity(identifier, x) in sv && sv[Identity(identifier, x)] == x
    {
      if x != r {
        assert x in front;
      }
    }
  }

  /** One accepted record keeps the stores consistent. */
  lemma {:induction false} AdmitStep(t: Tables, identifier: IdGetter, getters: seq<IndexGetter>, validate: Validator,
                  front: seq<Record>, r: Record)
    requires Distinct(Names(getters))
    requires Consistent(t, identifier, getters, front)
    requires Admit(t, Some(identifier), Some(getters), validate, r).error.None?
    ensures validate(r).None? && Identity(identifier, r) != Null
    ensures Consistent(Admit(t, Some(identifier), Some(getters), validate, r).tables, identifier, getters, front + [r])
  {
    AdmitAccepted(t, identifier, getters, validate, r);
    var s := Admit(t, Some(identifier), Some(getters), validate, r).tables;
    AdmitKeepsLists(s, t, getters, front, r);
    AdmitKeepsUniques(s, t, getters, front, r);
    AdmitKeepsValues(s.values, t.values, identifier, front, r);
  }

  /** A load from cleared stores that accepts every record leaves them
      consistent with the records, and every record passed validation. */
  lemma {:induction false} LoadSpec(identifier: IdGetter, getters: seq<IndexGetter>, validate: Validator,
                                    records: seq<Record>)
    requires Distinct(Names(getters))
    requires Load(Cleared, Some(identifier), Some(getters), validate, records).error.None?
    ensures Consistent(Load(Cleared, Some(identifier), Some(getters), validate, records).tables, identifier, getters, records)
    ensures forall r :: r in records ==> validate(r).None? && Identity(identifier, r) != Null
  {
    if |records| > 0 {
      var front := records[..|records| - 1];
      var r := records[|records| - 1];
      assert records == front + [r];
      var prev := Load(Cleared, Some(identifier), Some(getters), validate, front);
      assert prev.error.None?;
      assert Load(Cleared, Some(identifier), Some(getters), validate, records)
          == Admit(prev.tables, Some(identifier), Some(getters), validate, r);
      LoadSpec(identifier, getters, validate, front);
      AdmitStep(prev.tables, identifier, getters, validate, front, r);
      forall x | x in records
        ensures validate(x).None? && Identity(identifier, x) != Null
      {
        if x != r {
          assert x in front;
        }
      }
    }
  }

  /** A load that fails stopped at one record: the records before it were
      accepted, and the stores are what that record's step left. */
  lemma {:induction false} LoadFailure(t: Tables, identifier: Option<IdGetter>, getters: Option<seq<IndexGetter>>,
                                       validate: Validator, records: seq<Record>) returns (i: nat)
    requires Load(t, identifier, getters, validate, records).error.Some?
    ensures i < |records| && Load(t, identifier, getters, validate, records[..i]).error.None?
    ensures Load(t, identifier, getters, validate, records) ==
      Admit(Load(t, identifier, getters, validate, records[..i]).tables, identifier, getters, validate, records[i])
  {
    var front := records[..|records| - 1];
    if Load(t, identifier, getters, validate, front).error.Some? {
      i := LoadFailure(t, identifier, getters, validate, front);
      assert front[..i] == records[..i];
    } else {
      i := |records| - 1;
    }
  }

  /** A load that fails part way fails the whole load the same way. */
  lemma {:induction false} LoadPrefixErr(t: Tables, identifier: Option<IdGetter>, getters: Option<seq<IndexGetter>>,
                                         validate: Validator, records: seq<Record>, i: nat)
    requires i <= |records| && Load(t, identifier, getters, validate, records[..i]).error.Some?
    ensures Load(t, identifier, getters, validate, records) == Load(t, identifier, getters, validate, records[..i])
    decreases |records| - i
  {
    if i < |records| {
      assert records[..i + 1][..i] == records[..i];
      LoadPrefixErr(t, identifier, getters, validate, records, i + 1);
    } else {
      assert records[..i] == records;
    }
  }

  /** A getter failing part way fails `put`'s whole loop the same way. */
  /** One more getter of `put`'s loop. */
  lemma {:induction false} IndexAllStep(t: Tables, getters: seq<IndexGetter>, r: Record, i: nat)
    requires i < |getters| && IndexAll(t, getters[..i], r).error.None?
    ensures IndexAll(t, getters[..i + 1], r) == IndexOne(IndexAll(t, getters[..i], r).tables, getters[i], r)
  {
    assert getters[..i + 1][..i] == getters[..i];
  }

  lemma {:induction false} IndexAllPrefixErr(t: Tables, getters: seq<IndexGetter>, r: Record, i: nat)
    requires i <= |getters| && IndexAll(t, getters[..i], r).error.Some?
    ensures IndexAll(t, getters, r) == IndexAll(t, getters[..i], r)
    decreases |getters| - i
  {
    if i < |getters| {
      assert getters[..i + 1][..i] == getters[..i];
      IndexAllPrefixErr(t, getters, r, i + 1);
    } else {
      assert getters[..i] == getters;
    }
  }

  /** A record whose identity is already taken is refused only after it
      replaced the earlier record and was filed in every index. */
  lemma {:induction false} DuplicateIdentityFiled(t: Tables, identifier: IdGetter, getters: seq<IndexGetter>, validate: Validator, r: Record)
    requires Distinct(Names(getters))
    requires Admit(t, Some(identifier), Some(getters), validate, r).error == Some(DuplicateIdentity)
    ensures var s := Admit(t, Some(identifier), Some(getters), validate, r).tables;
      var key := Identity(identifier, r);
      && key in t.values && s.values == t.values[key := r]
      && (forall g, k :: g in getters ==>
            ListOf(s, g.name, k) == ListOf(t, g.name, k) + (if !g.unique && k == IndexKey(g, r) then [r] else []))
      && (forall g :: g in getters && g.unique ==> UniqueOf(s, g.name, IndexKey(g, r)) == Some(r))
  {
    PutSpec(t, identifier, getters, r);
    assert validate(r).None?;
    var key := Identity(identifier, r);
    if key != Null {
      IndexAllErr(t.(values := t.values[key := r]), getters, r);
    }
    assert PutOutcome(t, Some(identifier), Some(getters), r).result == Ok(true);
  }

  /** A record whose key a unique index already holds is refused after it
      replaced the earlier record in that index and in the identity map. */
  lemma {:induction false} UniqueClashFiled(t: Tables, identifier: IdGetter, getters: seq<IndexGetter>, validate: Validator, r: Record)
    requires Distinct(Names(getters))
    requires Admit(t, Some(identifier), Some(getters), validate, r).error.Some?
    requires Admit(t, Some(identifier), Some(getters), validate, r).error.value.DuplicateUniqueKey?
    ensures var f := Admit(t, Some(identifier), Some(getters), validate, r);
      var e := f.error.value;
      && f.tables.values == t.values[Identity(identifier, r) := r]
      && UniqueOf(t, e.index, e.indexKey).Some?
      && UniqueOf(f.tables, e.index, e.indexKey) == Some(r)
  {
    var key := Identity(identifier, r);
    var placed := t.(values := t.values[key := r]);
    IndexAllFrame(placed, getters, r);
    IndexAllErr(placed, getters, r);
    assert forall n, k :: UniqueOf(placed, n, k) == UniqueOf(t, n, k);
  }

  /** The sorting pass sorts each list by the comparator of the getter of
      its name and changes nothing else. */
  lemma {:induction false} SortIndexesSpec(t: Tables, getters: seq<IndexGetter>)
    ensures var s := SortIndexes(t, Some(getters));
      && s.values == t.values && s.uniques == t.uniques
      && s.indexs.Keys == t.indexs.Keys
      && forall n, k :: ListOf(s, n, k) == SortList(ListOf(t, n, k), GetterNamed(getters, n))
  {
  }

  /** A list the sorting pass leaves is a permutation of the loaded one,
      ordered by the comparator when there is one and untouched otherwise.
      The order holds between any two records, not only neighbours, and
      records that agree on every sort key keep their load order. */
  lemma {:induction false} SortListSpec(list: seq<Record>, g: IndexGetter)
    ensures multiset(SortList(list, Some(g))) == multiset(list)
    ensures HasComparator(g) ==>
      Sorting.Sorted(SortList(list, Some(g)), FieldSortComparator.AsFunction(g.comparator.value))
    ensures HasComparator(g) ==>
      var cmp := FieldSortComparator.AsFunction(g.comparator.value);
      var sorted := SortList(list, Some(g));
      && (forall i, j :: 0 <= i < j < |sorted| ==> cmp(sorted[i], sorted[j]) <= 0)
      && (forall p :: Sorting.Equivalents(sorted, p, cmp) == Sorting.Equivalents(list, p, cmp))
    ensures !HasComparator(g) ==> SortList(list, Some(g)) == list
  {
    if HasComparator(g) {
      FieldSortComparator.AsFunctionAntisymmetric(g.comparator.value);
      FieldSortComparator.AsFunctionTransitive(g.comparator.value);
      Sorting.SortSorted(list, FieldSortComparator.AsFunction(g.comparator.value));
    }
  }

  /** After a completed reload the stores hold exactly the decoded records:
      each under its identity, each in every unique index under its key,
      and the list of each key in a list index is the records with that
      key, in load order or sorted by the index's comparator. */
  lemma {:induction false} ReloadSpec(t: Tables, location: string, identifier: IdGetter, getters: seq<IndexGetter>,
                   validate: Validator, files: map<string, Result<seq<Record>, Error>>)
    requires Distinct(Names(getters))
    requires Reloaded(t, true, location, Some(identifier), Some(getters), validate, files).error.None?
    ensures location in files && files[location].Ok?
    ensures var records := files[location].value;
      var s := Reloaded(t, true, location, Some(identifier), Some(getters), validate, files).tables;
      && (forall r :: r in records ==>
            validate(r).None? && Identity(identifier, r) != Null &&
            Identity(identifier, r) in s.values && s.values[Identity(identifier, r)] == r)
      && s.values.Values == (set r | r in records)
      && (forall key :: key in s.values ==> key == Identity(identifier, s.values[key]))
      && (forall g, r :: g in getters && g.unique && r in records ==> UniqueOf(s, g.name, IndexKey(g, r)) == Some(r))
      && (forall g, k :: g in getters && g.unique && UniqueOf(s, g.name, k).Some? ==>
            UniqueOf(s, g.name, k).value in records && IndexKey(g, UniqueOf(s, g.name, k).value) == k)
      && (forall g, k :: g in getters && !g.unique ==> ListOf(s, g.name, k) == SortList(Matching(g, records, k), Some(g)))
  {
    var records := files[location].value;
    LoadSpec(identifier, getters, validate, records);
    var loaded := Load(Cleared, Some(identifier), Some(getters), validate, records).tables;
    SortIndexesSpec(loaded, getters);
    forall g | g in getters ensures GetterNamed(getters, g.name) == Some(g) {
      GetterNamedDistinct(getters, g);
    }
    var s := SortIndexes(loaded, Some(getters));
    assert Reloaded(t, true, location, Some(identifier), Some(getters), validate, files).tables == s;
    assert forall n, k :: UniqueOf(s, n, k) == UniqueOf(loaded, n, k);
    forall v | v in s.values.Values ensures v in records {
      var key :| key in s.values && s.values[key] == v;
    }
    forall r | r in records ensures r in s.values.Values {
      assert s.values[Identity(identifier, r)] == r;
    }
  }

  /** The values a lookup takes to find what a getter filed: the field's
      value, the method's result, or the parts' values in key order. */
  function KeyValues(g: IndexGetter, r: Record): (vs: seq<Value>)
    ensures IndexKey(g, r) == BuildIndexKey(vs)
  {
    match g.source
    case FieldKey(f) => [Read(r, FieldMember(f))]
    case FieldsKey(parts) => FieldValues(parts, r)
    case MethodKey(m) => [Read(r, MethodMember(m))]
  }

  /** After a completed reload, `getUnique` and `getIndex` with a record's
      own key values find it: the unique index returns that record, the
      list index a list that contains it. */
  lemma {:induction false} LookupAfterReload(t: Tables, location: string, identifier: IdGetter, getters: seq<IndexGetter>,
                          validate: Validator, files: map<string, Result<seq<Record>, Error>>, g: IndexGetter, r: Record)
    requires Distinct(Names(getters)) && g in getters
    requires Reloaded(t, true, location, Some(identifier), Some(getters), validate, files).error.None?
    requires location in files && files[location].Ok? && r in files[location].value
    ensures var s := Reloaded(t, true, location, Some(identifier), Some(getters), validate, files).tables;
      && (g.unique ==> UniqueOf(s, g.name, BuildIndexKey(KeyValues(g, r))) == Some(r))
      && (!g.unique ==> r in ListOf(s, g.name, BuildIndexKey(KeyValues(g, r))))
  {
    ReloadSpec(t, location, identifier, getters, validate, files);
    var records := files[location].value;
    var m := Matching(g, records, IndexKey(g, r));
    SortListSpec(m, g);
    assert r in multiset(m);
  }

  /** `Optional`'s `Ok(())` or `Err(e)`. */
  function AsResult(error: Option<Error>): Result<(), Error>
  {
    if error.Some? then Err(error.value) else Ok(())
  }

  /** One list index sorted by a comparator (`Collections.sort` on each of
      its lists). */
  method SortLists(index: map<string, seq<Record>>, g: IndexGetter) returns (sorted: map<string, seq<Record>>)
    ensures sorted == SortIndex(index, Some(g))
  {
    sorted := index;
    var keys := index.Keys;
    while keys != {}
      invariant keys <= index.Keys && sorted.Keys == index.Keys
      invariant forall k :: k in sorted ==> sorted[k] == if k in keys then index[k] else SortList(index[k], Some(g))
      decreases |keys|
    {
      var k :| k in keys;
      sorted := sorted[k := SortList(index[k], Some(g))];
      keys := keys - {k};
    }
  }

  /** The loop over the list indexes of the sorting pass. */
  method SortAll(indexs: map<string, map<string, seq<Record>>>, getters: seq<IndexGetter>)
    returns (sorted: map<string, map<string, seq<Record>>>)
    ensures sorted == SortedIndexs(indexs, getters)
  {
    sorted := indexs;
    var names := indexs.Keys;
    while names != {}
      invariant names <= indexs.Keys && sorted.Keys == indexs.Keys
      invariant forall n :: n in sorted ==>
        sorted[n] == if n in names then indexs[n] else SortIndex(indexs[n], GetterNamed(getters, n))
      decreases |names|
    {
      var n :| n in names;
      var g := GetterNamed(getters, n);
      if g.Some? && HasComparator(g.value) {
        var lists := SortLists(indexs[n], g.value);
        sorted := sorted[n := lists];
      } else {
        assert SortIndex(indexs[n], g) == indexs[n];
      }
      names := names - {n};
    }
  }

  class Storage {
    var initialized: bool
    var definition: Option<ResourceDefinition.Definition>
    var identifier: Option<IdGetter>
    var indexGetters: Option<seq<IndexGetter>>
    var values: map<Value, Record>
    var uniques: map<string, map<string, Record>>
    var indexs: map<string, map<string, seq<Record>>>
    /** The observers notified so far: once per completed reload. */
    var notifications: nat

    constructor()
      ensures !initialized && definition.None? && identifier.None? && indexGetters.None?
      ensures Contents() == Cleared && notifications == 0
    {
      initialized := false;
      definition := None;
      identifier := None;
      indexGetters := None;
      values := map[];
      uniques := map[];
      indexs := map[];
      notifications := 0;
    }

    /** The three stores. */
    function Contents(): Tables
      reads this
    {
      Tables(values, uniques, indexs)
    }

    /** What `initialize` sets up. */
    function Config(): (bool, Option<ResourceDefinition.Definition>, Option<IdGetter>, Option<seq<IndexGetter>>)
      reads this
    {
      (initialized, definition, identifier, indexGetters)
    }

    /** `getLocation()`. */
    function Location(): string
      reads this
    {
      if definition.Some? then definition.value.location else ""
    }

    /** `initialize`: runs once. The storage counts as initialized from the
        start of the first call, even when building the getters or the first
        reload then fails. */
    method Initialize(def: ResourceDefinition.Definition, files: map<string, Result<seq<Record>, Error>>,
                      validate: Validator) returns (result: Result<(), Error>)
      modifies this
      ensures old(initialized) ==>
        result == Ok(()) && Contents() == old(Contents()) && Config() == old(Config()) &&
        notifications == old(notifications)
      ensures !old(initialized) ==> initialized && definition == Some(def)
      ensures !old(initialized) && CreateIdGetter(def.clz).Err? ==>
        result == Err(CreateIdGetter(def.clz).error) && Contents() == old(Contents())
      ensures !old(initialized) && CreateIdGetter(def.clz).Ok? && IndexGetters(def.clz).Err? ==>
        result == Err(IndexGetters(def.clz).error) && Contents() == old(Contents())
      ensures !old(initialized) && CreateIdGetter(def.clz).Ok? && IndexGetters(def.clz).Ok? ==>
        && identifier == Some(CreateIdGetter(def.clz).value)
        && indexGetters == Some(IndexGetters(def.clz).value)
        && var f := Reloaded(old(Contents()), true, def.location, identifier, indexGetters, validate, files);
           Contents() == f.tables && result == AsResult(f.error)
    {
      if initialized {
        return Ok(());
      }
      initialized := true;
      definition := Some(def);
      var id := CreateIdGetter(def.clz);
      if id.Err? {
        return Err(id.error);
      }
      identifier := Some(id.value);
      var getters := CreateIndexGetters(def.clz);
      if getters.Err? {
        return Err(getters.error);
      }
      indexGetters := Some(getters.value);
      result := Reload(files, validate);
    }

    /** `isReady`: everything but `initialize` is refused before it. */
    method IsReady() returns (r: Result<(), Error>)
      ensures r.Ok? <==> initialized
      ensures r.Err? ==> r.error == NotInitialized
    {
      if !initialized {
        return Err(NotInitialized);
      }
      r := Ok(());
    }

    /** `get(key, flag)`: the record with that identity; an absent one is
        `null`, or an error when `flag` is set. */
    method Get(key: Value, flag: bool) returns (r: Result<Option<Record>, Error>)
      ensures !initialized ==> r == Err(NotInitialized)
      ensures initialized && key in values ==> r == Ok(Some(values[key]))
      ensures initialized && key !in values && flag ==> r == Err(NoSuchResource(key))
      ensures initialized && key !in values && !flag ==> r == Ok(None)
    {
      var ready := IsReady();
      if ready.Err? {
        return Err(ready.error);
      }
      if key in values {
        return Ok(Some(values[key]));
      }
      if flag {
        return Err(NoSuchResource(key));
      }
      r := Ok(None);
    }

    /** `get(key)`: `get(key, false)`. */
    method GetOrNull(key: Value) returns (r: Result<Option<Record>, Error>)
      ensures !initialized ==> r == Err(NotInitialized)
      ensures initialized ==> r == Ok(if key in values then Some(values[key]) else None)
    {
      r := Get(key, false);
    }

    /** `containsId`. */
    method ContainsId(key: Value) returns (r: Result<bool, Error>)
      ensures !initialized ==> r == Err(NotInitialized)
      ensures initialized ==> r.Ok? && (r.value <==> key in values)
    {
      var ready := IsReady();
      if ready.Err? {
        return Err(ready.error);
      }
      r := Ok(key in values);
    }

    /** `getAll`: the stored records. */
    method GetAll() returns (r: Result<set<Record>, Error>)
      ensures !initialized ==> r == Err(NotInitialized)
      ensures initialized ==> r.Ok? && forall x :: x in r.value <==> exists key :: key in values && values[key] == x
    {
      var ready := IsReady();
      if ready.Err? {
        return Err(ready.error);
      }
      r := Ok(values.Values);
    }

    /** `getUnique(name, value...)`: the key is built as `put` built it; an
        unknown index or key gives `null`. */
    method GetUnique(name: string, value: seq<Value>) returns (r: Result<Option<Record>, Error>)
      ensures !initialized ==> r == Err(NotInitialized)
      ensures initialized ==> r == Ok(UniqueOf(Contents(), name, BuildIndexKey(value)))
      ensures initialized && name !in uniques ==> r == Ok(None)
    {
      var ready := IsReady();
      if ready.Err? {
        return Err(ready.error);
      }
      if name !in uniques {
        return Ok(None);
      }
      var index := uniques[name];
      var indexKey := BuildIndexKey(value);
      r := Ok(if indexKey in index then Some(index[indexKey]) else None);
    }

    /** `getIndex(name, value...)`: a copy of the list filed under the key;
        an unknown index or key gives the empty list. */
    method GetIndex(name: string, value: seq<Value>) returns (r: Result<seq<Record>, Error>)
      ensures !initialized ==> r == Err(NotInitialized)
      ensures initialized ==> r == Ok(ListOf(Contents(), name, BuildIndexKey(value)))
      ensures initialized && name !in indexs ==> r == Ok([])
    {
      var ready := IsReady();
      if ready.Err? {
        return Err(ready.error);
      }
      if name !in indexs {
        return Ok([]);
      }
      var index := indexs[name];
      var indexKey := BuildIndexKey(value);
      if indexKey !in index {
        return Ok([]);
      }
      r := Ok(index[indexKey]);
    }

    /** `reload`: see `Reloaded`; a completed reload notifies the
        observers once. */
    method Reload(files: map<string, Result<seq<Record>, Error>>, validate: Validator) returns (result: Result<(), Error>)
      modifies this
      ensures var f := Reloaded(old(Contents()), old(initialized), old(Location()), identifier, indexGetters, validate, files);
        Contents() == f.tables && result == AsResult(f.error)
      ensures notifications == old(notifications) + (if result.Ok? then 1 else 0)
      ensures Config() == old(Config())
    {
      var ready := IsReady();
      if ready.Err? {
        return ready;
      }
      var location := Location();
      if location !in files {
        return Err(ResourceFileMissing(location));
      }
      var decoded := files[location];
      if decoded.Err? {
        return Err(decoded.error);
      }
      Clear();
      result := LoadRecords(decoded.value, validate);
      if result.Err? {
        return;
      }
      SortIndexLists();
      notifications := notifications + 1;
    }

    /** `reload`'s loop over the decoded records. */
    method LoadRecords(records: seq<Record>, validate: Validator) returns (result: Result<(), Error>)
      modifies this
      ensures var f := Load(old(Contents()), identifier, indexGetters, validate, records);
        Contents() == f.tables && result == AsResult(f.error)
      ensures Config() == old(Config()) && notifications == old(notifications)
    {
      ghost var start := Contents();
      var i := 0;
      while i < |records|
        invariant 0 <= i <= |records|
        invariant Load(start, identifier, indexGetters, validate, records[..i]) == Filed(Contents(), None)
        invariant Config() == old(Config()) && notifications == old(notifications)
      {
        assert records[..i + 1][..i] == records[..i];
        var obj := records[i];
        var message := if definition.None? || ResourceDefinition.IsNeedValidate(definition.value) then validate(obj) else None;
        if message.Some? {
          LoadPrefixErr(start, identifier, indexGetters, validate, records, i + 1);
          if identifier.None? {
            return Err(NullPointer);
          }
          return Err(ValidationFailed(Identity(identifier.value, obj), message.value));
        }
        var put := Put(obj);
        if put.Err? {
          LoadPrefixErr(start, identifier, indexGetters, validate, records, i + 1);
          return Err(put.error);
        }
        if put.value {
          LoadPrefixErr(start, identifier, indexGetters, validate, records, i + 1);
          return Err(DuplicateIdentity);
        }
        i := i + 1;
      }
      assert records[..i] == records;
      result := Ok(());
    }

    /** The sorting pass: each list index whose getter has a comparator has
        every list sorted by it. */
    method SortIndexLists()
      modifies this
      ensures Contents() == SortIndexes(old(Contents()), indexGetters)
      ensures Config() == old(Config()) && notifications == old(notifications)
    {
      var getters := if indexGetters.Some? then indexGetters.value else [];
      indexs := SortAll(indexs, getters);
    }

    /** `clear()`. */
    method Clear()
      modifies this
      ensures Contents() == Cleared
      ensures Config() == old(Config()) && notifications == old(notifications)
    {
      values := map[];
      indexs := map[];
      uniques := map[];
    }

    /** `put`: files the record under its identity, then under each getter's
        key in getter order; see `PutOutcome`. */
    method Put(r: Record) returns (result: Result<bool, Error>)
      modifies this
      ensures var s := PutOutcome(old(Contents()), identifier, indexGetters, r);
        Contents() == s.tables && result == s.result
      ensures Config() == old(Config()) && notifications == old(notifications)
    {
      if identifier.None? {
        return Err(NullPointer);
      }
      var key := Identity(identifier.value, r);
      if key == Null {
        return Err(NullIdentity);
      }
      var replaced := key in values;
      values := values[key := r];
      if indexGetters.None? {
        return Err(NullPointer);
      }
      var error := FileUnderAll(indexGetters.value, r);
      if error.Some? {
        return Err(error.value);
      }
      result := Ok(replaced);
    }

    /** The getter loop of `put`, stopping at the first failure. */
    method FileUnderAll(getters: seq<IndexGetter>, r: Record) returns (error: Option<Error>)
      modifies this
      ensures var f := IndexAll(old(Contents()), getters, r);
        Contents() == f.tables && error == f.error
      ensures Config() == old(Config()) && notifications == old(notifications)
    {
      var i := 0;
      while i < |getters|
        invariant 0 <= i <= |getters|
        invariant IndexAll(old(Contents()), getters[..i], r) == Filed(Contents(), None)
        invariant Config() == old(Config()) && notifications == old(notifications)
      {
        IndexAllStep(old(Contents()), getters, r, i);
        error := FileUnder(getters[i], r);
        if error.Some? {
          IndexAllPrefixErr(old(Contents()), getters, r, i + 1);
          return;
        }
        i := i + 1;
      }
      assert getters[..i] == getters;
      error := None;
    }

    /** One pass of `put`'s getter loop. */
    method FileUnder(g: IndexGetter, r: Record) returns (error: Option<Error>)
      modifies this
      ensures var f := IndexOne(old(Contents()), g, r);
        Contents() == f.tables && error == f.error
      ensures Config() == old(Config()) && notifications == old(notifications)
    {
      var indexKey := IndexKey(g, r);
      if g.unique {
        var index := LoadUniqueIndex(g.name);
        var clash := indexKey in index;
        Maps.UpdateTwice(old(uniques), g.name, index, index[indexKey := r]);
        uniques := uniques[g.name := index[indexKey := r]];
        if clash {
          return Some(DuplicateUniqueKey(g.name, indexKey));
        }
      } else {
        ghost var before := if g.name in old(indexs) then old(indexs)[g.name] else map[];
        var list := LoadList(g.name, indexKey);
        assert indexs[g.name] == before[indexKey := list];
        Maps.UpdateTwice(before, indexKey, list, list + [r]);
        Maps.UpdateTwice(old(indexs), g.name, before[indexKey := list], before[indexKey := list + [r]]);
        indexs := indexs[g.name := indexs[g.name][indexKey := list + [r]]];
      }
      error := None;
    }

    /** `loadListIndex(name, key)`: the list under `key`, created empty when
        absent. */
    method LoadList(name: string, key: string) returns (list: seq<Record>)
      modifies this
      ensures list == ListOf(old(Contents()), name, key)
      ensures name in indexs
      ensures indexs == old(indexs)[name := (if name in old(indexs) then old(indexs)[name] else map[])[key := list]]
      ensures values == old(values) && uniques == old(uniques)
      ensures Config() == old(Config()) && notifications == old(notifications)
    {
      var index := LoadListIndex(name);
      if key in index {
        Maps.UpdateSame(index, key);
        return index[key];
      }
      list := [];
      Maps.UpdateTwice(old(indexs), name, index, index[key := list]);
      indexs := indexs[name := index[key := list]];
    }

    /** `loadListIndex(name)`: the list index, created empty when absent. */
    method LoadListIndex(name: string) returns (index: map<string, seq<Record>>)
      modifies this
      ensures index == if name in old(indexs) then old(indexs)[name] else map[]
      ensures indexs == old(indexs)[name := index]
      ensures values == old(values) && uniques == old(uniques)
      ensures Config() == old(Config()) && notifications == old(notifications)
    {
      if name in indexs {
        Maps.UpdateSame(indexs, name);
        return indexs[name];
      }
      index := map[];
      indexs := indexs[name := index];
    }

    /** `loadUniqueIndex(name)`: the unique index, created empty when absent. */
    method LoadUniqueIndex(name: string) returns (index: map<string, Record>)
      modifies this
      ensures index == if name in old(uniques) then old(uniques)[name] else map[]
      ensures uniques == old(uniques)[name := index]
      ensures values == old(values) && indexs == old(indexs)
      ensures Config() == old(Config()) && notifications == old(notifications)
    {
      if name in uniques {
        Maps.UpdateSame(uniques, name);
        return uniques[name];
      }
      index := map[];
      uniques := uniques[name := index];
    }
  }
}
