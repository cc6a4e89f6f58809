/**
 * The backend type registry (a name -> backend-class table with
 * collision-rejecting registration), the base backend object and the
 * archive record that backends list.
 */
module BackendTypes {
  import opened Wrappers

  /** One archive a backend listed: its backend-specific identifier and its
      creation time in seconds since the epoch (UTC). */
  datatype Archive = Archive(fullname: string, timestamp: int)

  /** An opaque snapshot of one full listing of a backend, reused across backups. */
  datatype ListToken = ListToken(snapshot: seq<Archive>)

  /** A backend implementation class: its class name and the NAMES it registers under. */
  datatype BackendClass = BackendClass(className: string, names: seq<string>)

  /** `BackupBackend` itself, whose NAMES is empty. */
  const BaseBackendClass: BackendClass := BackendClass("BackupBackend", [])

  datatype RegistryError = NameCollision(name: string)

  /** Registering `cls` under its NAMES from index `i` on, in order, starting
      from table `types`: the final table and the outcome. The first name
      already in the table stops the run, leaving the earlier names registered. */
  function DefineFrom(types: map<string, BackendClass>, cls: BackendClass, i: nat): (res: (map<string, BackendClass>, Result<(), RegistryError>))
    requires i <= |cls.names|
    decreases |cls.names| - i
  {
    if i == |cls.names| then (types, Success(()))
    else if cls.names[i] in types then (types, Failure(NameCollision(cls.names[i])))
    else DefineFrom(types[cls.names[i] := cls], cls, i + 1)
  }

  /** Defining a class succeeds exactly when its remaining NAMES are pairwise
      distinct and none is already registered. */
  lemma {:induction false} DefineSucceedsIff(types: map<string, BackendClass>, cls: BackendClass, i: nat)
    requires i <= |cls.names|
    ensures DefineFrom(types, cls, i).1.Success? <==>
      (forall j :: i <= j < |cls.names| ==> cls.names[j] !in types) &&
      (forall j, k :: i <= j < k < |cls.names| ==> cls.names[j] != cls.names[k])
    decreases |cls.names| - i
  {
    if i < |cls.names| && cls.names[i] !in types {
      DefineSucceedsIff(types[cls.names[i] := cls], cls, i + 1);
    }
  }

  /** A successful definition maps every one of the class's NAMES to it and
      leaves every previous entry unchanged; nothing else is added. */
  lemma {:induction false} DefineRegistersAll(types: map<string, BackendClass>, cls: BackendClass, i: nat)
    requires i <= |cls.names|
    requires DefineFrom(types, cls, i).1.Success?
    ensures var after := DefineFrom(types, cls, i).0;
      (forall j :: i <= j < |cls.names| ==> cls.names[j] in after && after[cls.names[j]] == cls) &&
      (forall n :: n in types ==> n in after && after[n] == types[n]) &&
      (forall n :: n in after ==> n in types || exists j :: i <= j < |cls.names| && cls.names[j] == n)
    decreases |cls.names| - i
  {
    if i < |cls.names| {
      DefineRegistersAll(types[cls.names[i] := cls], cls, i + 1);
    }
  }

  /** A failed definition names a colliding NAME, keeps every previous entry and
      adds only entries for the class. */
  lemma {:induction false} DefineFailureKeepsTable(types: map<string, BackendClass>, cls: BackendClass, i: nat)
    requires i <= |cls.names|
    requires DefineFrom(types, cls, i).1.Failure?
    ensures var (after, r) := DefineFrom(types, cls, i);
      (exists j :: i <= j < |cls.names| && r.error == NameCollision(cls.names[j])) &&
      r.error.name in after &&
      (forall n :: n in types ==> n in after && after[n] == types[n]) &&
      (forall n :: n in after && n !in types ==> after[n] == cls)
    decreases |cls.names| - i
  {
    if cls.names[i] !in types {
      DefineFailureKeepsTable(types[cls.names[i] := cls], cls, i + 1);
    }
  }

  /** The module-level `_BACKEND_TYPES` table. */
  class BackendRegistry {
    var types: map<string, BackendClass>

    constructor ()
      ensures types == map[]
    {
      types := map[];
    }

    /** `backend_type(name)`: the registered class, or None. */
    function BackendType(name: string): (r: Option<BackendClass>)
      reads this
      ensures r.Some? <==> name in types
      ensures r.Some? ==> r.value == types[name]
    {
      if name in types then Some(types[name]) else None
    }

    /** `register_backend_type(type, name)`: a taken name raises and changes nothing. */
    method Register(cls: BackendClass, name: string) returns (r: Result<(), RegistryError>)
      modifies this
      ensures name in old(types) ==> r == Failure(NameCollision(name)) && types == old(types)
      ensures name !in old(types) ==> r.Success? && types == old(types)[name := cls]
    {
      if name in types {
        return Failure(NameCollision(name));
      }
      types := types[name := cls];
      r := Success(());
    }

    /** Not part of the source module: the inverse of Register that the source's
        tests call as `unregister_backend_type`. */
    method Unregister(name: string)
      modifies this
      ensures types == old(types) - {name}
    {
      types := types - {name};
    }

    /** Class creation under the `BackendType` metaclass: register the class
        under each of its NAMES in order, stopping at the first collision
        (names registered before it stay registered). */
    method DefineClass(cls: BackendClass) returns (r: Result<(), RegistryError>)
      modifies this
      ensures (types, r) == DefineFrom(old(types), cls, 0)
    {
      var i := 0;
      while i < |cls.names|
        invariant 0 <= i <= |cls.names|
        invariant DefineFrom(types, cls, i) == DefineFrom(old(types), cls, 0)
      {
        var name := cls.names[i];
        if name in types {
          return Failure(NameCollision(name));
        }
        r := Register(cls, name);
        i := i + 1;
      }
      r := Success(());
    }
  }

  /** A caller's backend configuration dictionary (JSON strings or null). */
  class ConfigDict {
    var entries: map<string, Option<string>>

    constructor (entries: map<string, Option<string>>)
      ensures this.entries == entries
    {
      this.entries := entries;
    }
  }

  datatype BackendError =
    | KeyMissing(key: string)   // KeyError from `config.pop("name")`
    | NameIsNull                // BackendConfigurationError("Missing name for backend")

  /** An instance of a backend class. */
  class BackupBackend {
    const backendClass: BackendClass
    const name: string

    constructor (backendClass: BackendClass, name: string)
      ensures this.backendClass == backendClass && this.name == name
    {
      this.backendClass := backendClass;
      this.name := name;
    }

    /** `str(backend)`. */
    function ToString(): string {
      backendClass.className + ": " + name
    }
  }

  /** `BackupBackend.__init__`: pops "name" from the caller's dictionary. */
  method NewBackend(cls: BackendClass, config: ConfigDict) returns (r: Result<BackupBackend, BackendError>)
    modifies config
    ensures config.entries == old(config.entries) - {"name"}
    ensures "name" !in old(config.entries) ==> r == Failure(KeyMissing("name"))
    ensures "name" in old(config.entries) && old(config.entries)["name"].None? ==> r == Failure(NameIsNull)
    ensures "name" in old(config.entries) && old(config.entries)["name"].Some? ==>
      r.Success? && fresh(r.value) && r.value.backendClass == cls &&
      r.value.name == old(config.entries)["name"].value
  {
    if "name" !in config.entries {
      return Failure(KeyMissing("name"));
    }
    var value := config.entries["name"];
    config.entries := config.entries - {"name"};
    if value.None? {
      return Failure(NameIsNull);
    }
    var backend := new BackupBackend(cls, value.value);
    r := Success(backend);
  }

  /** The registration and unregistration scenario of the source's tests:
      defining a class registers its name; unregistering removes it again. */
  method RegistrationScenario() returns (registered: Option<BackendClass>, afterwards: Option<BackendClass>)
    ensures registered == Some(BackendClass("MyNewBackend", ["mytype"]))
    ensures afterwards == None
  {
    var registry := new BackendRegistry();
    var base := registry.DefineClass(BaseBackendClass);
    assert registry.types == map[];
    var cls := BackendClass("MyNewBackend", ["mytype"]);
    var defined := registry.DefineClass(cls);
    assert defined.Success?;
    registered := registry.BackendType("mytype");
    registry.Unregister("mytype");
    afterwards := registry.BackendType("mytype");
  }

  /** `str(MyBackend({"name": "foo"}))` from the source's tests. */
  method StrScenario() returns (s: string)
    ensures s == "MyBackend: foo"
  {
    var config := new ConfigDict(map["name" := Some("foo")]);
    var made := NewBackend(BackendClass("MyBackend", ["mytype"]), config);
    s := made.value.ToString();
  }
}
