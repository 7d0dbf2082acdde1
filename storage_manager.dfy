/** `StorageManager`: the registry of resource definitions and of the
    storages built from them, one per resource class (named by its class
    name). */
module StorageManager {
  import opened Wrappers
  import opened Errors
  import ResourceDefinition
  import GetterBuilder
  import Storage

  type Files = map<string, Result<seq<Values.Record>, Error>>

  class StorageManager {
    var definitions: map<string, ResourceDefinition.Definition>
    var storages: map<string, Storage.Storage>
    /** The watched files: absolute path to the class read from it. */
    var resourceMap: map<string, string>

    constructor()
      ensures definitions == map[] && storages == map[] && resourceMap == map[]
      ensures Valid()
    {
      definitions := map[];
      storages := map[];
      resourceMap := map[];
    }

    /** Every storage belongs to a registered definition, was initialized
        when it was published, and serves one class only (each is created
        for its class). */
    ghost predicate Valid()
      reads this, storages.Values
    {
      && storages.Keys <= definitions.Keys
      && (forall n :: n in storages ==> storages[n].initialized)
      && Unshared()
    }

    ghost predicate Unshared()
      reads this
    {
      forall n, m :: n in storages && m in storages && n != m ==> storages[n] != storages[m]
    }

    /** `initialize(definition)`: put-if-absent registration, then the
        class's storage. A second definition for a class is refused and the
        first one stays. */
    method Initialize(def: ResourceDefinition.Definition, files: Files, validate: Storage.Validator)
      returns (r: Result<Storage.Storage, Error>)
      requires Valid()
      modifies this
      ensures Valid()
      ensures resourceMap == old(resourceMap)
      ensures def.clz.name in old(definitions) ==>
        r == Err(DuplicateDefinition) && definitions == old(definitions) && storages == old(storages)
      ensures def.clz.name !in old(definitions) ==>
        && definitions == old(definitions)[def.clz.name := def]
        && def.clz.name in storages && fresh(storages[def.clz.name])
        && storages == old(storages)[def.clz.name := storages[def.clz.name]]
        && storages[def.clz.name].definition == Some(def)
        && var f := Storage.Initialized(Storage.Cleared, def, validate, files);
           storages[def.clz.name].Contents() == f.tables &&
           r == (if f.error.Some? then Err(f.error.value) else Ok(storages[def.clz.name]))
    {
      var name := def.clz.name;
      if name in definitions {
        return Err(DuplicateDefinition);
      }
      definitions := definitions[name := def];
      r := InitializeStorage(name, files, validate);
    }

    /** `initializeStorage(clz)`: refused without a definition; otherwise a
        new storage is published unless one already is, and only the one
        published is initialized. A storage whose initialization fails stays
        published. */
    method InitializeStorage(name: string, files: Files, validate: Storage.Validator)
      returns (r: Result<Storage.Storage, Error>)
      requires storages.Keys <= definitions.Keys
      requires forall n :: n in storages ==> storages[n].initialized
      requires Unshared()
      modifies this
      ensures Valid()
      ensures definitions == old(definitions) && resourceMap == old(resourceMap)
      ensures name !in definitions ==> r == Err(MissingDefinition) && storages == old(storages)
      ensures name in old(storages) ==> r == Ok(old(storages)[name]) && storages == old(storages)
      ensures name in definitions && name !in old(storages) ==>
        && name in storages && fresh(storages[name])
        && storages == old(storages)[name := storages[name]]
        && storages[name].initialized && storages[name].definition == Some(definitions[name])
        && var f := Storage.Initialized(Storage.Cleared, definitions[name], validate, files);
           storages[name].Contents() == f.tables &&
           r == (if f.error.Some? then Err(f.error.value) else Ok(storages[name])) &&
           (f.error.None? ==> Ready(storages[name], definitions[name]))
    {
      if name !in definitions {
        return Err(MissingDefinition);
      }
      var definition := definitions[name];
      if name in storages {
        return Ok(storages[name]);
      }
      var storage := new Storage.Storage();
      storages := storages[name := storage];
      var initialized := InitializeNew(storage, definition, files, validate);
      if initialized.Err? {
        return Err(initialized.error);
      }
      r := Ok(storage);
    }

    /** The `initialize` of a storage just published: whatever it returns,
        the storage is initialized with the definition, and it holds what
        `Initialized` says. */
    static method InitializeNew(storage: Storage.Storage, def: ResourceDefinition.Definition, files: Files,
                                validate: Storage.Validator)
      returns (r: Result<(), Error>)
      modifies storage
      ensures storage.initialized
      ensures !old(storage.initialized) ==>
        && storage.definition == Some(def)
        && var f := Storage.Initialized(old(storage.Contents()), def, validate, files);
           storage.Contents() == f.tables && r == Storage.AsResult(f.error)
           && (f.error.None? ==> Ready(storage, def))
    {
      r := storage.Initialize(def, files, validate);
    }

    /** A storage whose getters were built from `def`: what a later
        `reload` reads with. */
    static ghost predicate Ready(storage: Storage.Storage, def: ResourceDefinition.Definition)
      reads storage
    {
      && storage.initialized && storage.definition == Some(def)
      && GetterBuilder.CreateIdGetter(def.clz).Ok? && GetterBuilder.IndexGetters(def.clz).Ok?
      && storage.identifier == Some(GetterBuilder.CreateIdGetter(def.clz).value)
      && storage.indexGetters == Some(GetterBuilder.IndexGetters(def.clz).value)
    }

    /** `getStorage(clz)`: an existing storage as it is, otherwise a new one
        built from the definition. */
    method GetStorage(name: string, files: Files, validate: Storage.Validator)
      returns (r: Result<Storage.Storage, Error>)
      requires Valid()
      modifies this
      ensures Valid()
      ensures definitions == old(definitions) && resourceMap == old(resourceMap)
      ensures name in old(storages) ==> r == Ok(old(storages)[name]) && storages == old(storages)
      ensures name !in old(storages) && name !in definitions ==> r == Err(MissingDefinition) && storages == old(storages)
      ensures name !in old(storages) && name in definitions ==>
        && name in storages && fresh(storages[name])
        && storages == old(storages)[name := storages[name]]
        && storages[name].definition == Some(definitions[name])
        && var f := Storage.Initialized(Storage.Cleared, definitions[name], validate, files);
           storages[name].Contents() == f.tables &&
           r == (if f.error.Some? then Err(f.error.value) else Ok(storages[name])) &&
           (f.error.None? ==> Ready(storages[name], definitions[name]))
    {
      if name in storages {
        return Ok(storages[name]);
      }
      r := InitializeStorage(name, files, validate);
    }

    /** `reload(clz)`: refused without a definition; otherwise the storage
        `getStorage` gives is reloaded. A storage built for the call is
        reloaded right after its first load, which leaves it as that load
        did. No other storage changes. */
    method Reload(name: string, files: Files, validate: Storage.Validator) returns (r: Result<(), Error>)
      requires Valid()
      modifies this, storages.Values
      ensures Valid()
      ensures definitions == old(definitions) && resourceMap == old(resourceMap)
      ensures forall n :: n in old(storages) && n != name ==>
        n in storages && storages[n] == old(storages[n]) && storages[n].Contents() == old(storages[n].Contents())
      ensures name !in definitions ==> r == Err(MissingDefinition) && storages == old(storages)
      ensures name in old(storages) ==>
        && storages == old(storages)
        && var s := storages[name];
           var f := Storage.Reloaded(old(s.Contents()), old(s.initialized), old(s.Location()),
                                     s.identifier, s.indexGetters, validate, files);
           s.Contents() == f.tables && r == Storage.AsResult(f.error)
      ensures name in definitions && name !in old(storages) ==>
        && name in storages && fresh(storages[name]) && storages == old(storages)[name := storages[name]]
        && var f := Storage.Initialized(Storage.Cleared, definitions[name], validate, files);
           storages[name].Contents() == f.tables && r == Storage.AsResult(f.error)
    {
      if name !in definitions {
        return Err(MissingDefinition);
      }
      if name in storages {
        r := ReloadPublished(name, files, validate);
      } else {
        r := ReloadBuilt(name, files, validate);
      }
    }

    /** `reload` where `getStorage` finds the storage published. */
    method ReloadPublished(name: string, files: Files, validate: Storage.Validator) returns (r: Result<(), Error>)
      requires Valid() && name in storages
      modifies this, storages[name]
      ensures Valid()
      ensures definitions == old(definitions) && resourceMap == old(resourceMap) && storages == old(storages)
      ensures var s := storages[name];
        var f := Storage.Reloaded(old(s.Contents()), old(s.initialized), old(s.Location()),
                                  s.identifier, s.indexGetters, validate, files);
        s.Contents() == f.tables && r == Storage.AsResult(f.error)
    {
      var storage := GetStorage(name, files, validate);
      r := storage.value.Reload(files, validate);
    }

    /** `reload` where `getStorage` builds the storage: its first load is
        repeated, which leaves it as that load did. */
    method ReloadBuilt(name: string, files: Files, validate: Storage.Validator) returns (r: Result<(), Error>)
      requires Valid() && name in definitions && name !in storages
      modifies this
      ensures Valid()
      ensures definitions == old(definitions) && resourceMap == old(resourceMap)
      ensures name in storages && fresh(storages[name]) && storages == old(storages)[name := storages[name]]
      ensures var f := Storage.Initialized(Storage.Cleared, definitions[name], validate, files);
        storages[name].Contents() == f.tables && r == Storage.AsResult(f.error)
    {
      var storage := GetStorage(name, files, validate);
      if storage.Err? {
        return Err(storage.error);
      }
      r := storage.value.Reload(files, validate);
      Storage.ReloadAfterInitialized(Storage.Cleared, definitions[name], validate, files);
    }

    /** `listStorages`: the storages in the table. */
    method ListStorages() returns (r: set<Storage.Storage>)
      ensures forall s :: s in r <==> exists n :: n in storages && storages[n] == s
    {
      r := storages.Values;
    }

    /** `clear`: the storages go, the definitions stay, so a later
        `getStorage` builds a new storage from the kept definition. */
    method Clear()
      requires Valid()
      modifies this
      ensures Valid()
      ensures storages == map[] && definitions == old(definitions) && resourceMap == old(resourceMap)
    {
      storages := map[];
    }

    /** `setResourceMap`. */
    method SetResourceMap(m: map<string, string>)
      requires Valid()
      modifies this
      ensures Valid()
      ensures resourceMap == m && definitions == old(definitions) && storages == old(storages)
    {
      resourceMap := m;
    }

    /** `onFileChange(file)`: a change to a watched file reloads its class;
        any other file changes nothing. */
    method OnFileChange(path: string, files: Files, validate: Storage.Validator) returns (r: Result<(), Error>)
      requires Valid()
      modifies this, storages.Values
      ensures Valid()
      ensures definitions == old(definitions) && resourceMap == old(resourceMap)
      ensures path !in resourceMap ==>
        r == Ok(()) && storages == old(storages) &&
        forall n :: n in storages ==> storages[n].Contents() == old(storages[n].Contents())
      ensures path in resourceMap ==>
        var name := resourceMap[path];
        && (forall n :: n in old(storages) && n != name ==>
              n in storages && storages[n] == old(storages[n]) && storages[n].Contents() == old(storages[n].Contents()))
        && (name !in definitions ==> r == Err(MissingDefinition) && storages == old(storages))
        && (name in old(storages) ==>
              && storages == old(storages)
              && var s := storages[name];
                 var f := Storage.Reloaded(old(s.Contents()), old(s.initialized), old(s.Location()),
                                           s.identifier, s.indexGetters, validate, files);
                 s.Contents() == f.tables && r == Storage.AsResult(f.error))
        && (name in definitions && name !in old(storages) ==>
              && name in storages && fresh(storages[name]) && storages == old(storages)[name := storages[name]]
              && var f := Storage.Initialized(Storage.Cleared, definitions[name], validate, files);
                 storages[name].Contents() == f.tables && r == Storage.AsResult(f.error))
    {
      if path !in resourceMap {
        return Ok(());
      }
      r := Reload(resourceMap[path], files, validate);
    }
  }
}
