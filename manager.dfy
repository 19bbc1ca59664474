/**
 * The multi-vault registry (src/vault/manager.rs): a map from vault name to save directory,
 * kept in a configuration file, with every vault message forwarded to the interface of the
 * named vault's directory.
 */
module Managers {
  import opened Wrappers
  import opened Errors
  import opened Ordering
  import opened Files
  import opened Storage
  import opened Encryption
  import Schemas
  import Infos
  import opened VaultProtocol
  import opened Interfaces

  /** `ManagerMessage`, with the variants `receive` matches on. */
  datatype ManagerMessage =
    | Empty
    | NewVault(name: string)
    | DeleteVault(name: string, password: Password)
    | DeleteEmptyVault(name: string)
    | VaultMessage(name: string, message: Message)
    | List
    | Info

  /** `config.map`: vault name to save directory, a path given as its components. */
  type Registry = map<string, seq<string>>

  /**
   * `VaultInterface::delete` and `VaultInterface::delete_empty` are not part of this model:
   * their outcome for a save directory (and password) is given.
   */
  datatype Removal = Removal(
    delete: (seq<string>, Password) -> Outcome<Error>,
    deleteEmpty: seq<string> -> Outcome<Error>)

  // ---------------------------------------------------------------------------
  // `PathBuf::push` on Unix. A directory is the list of its components; an absolute one starts
  // with `ROOT`. Empty and `.` pieces name no directory of their own and are dropped, as
  // `Path::components` drops them; `..` stays a component.

  /** The component standing for the file-system root. */
  const ROOT: string := "/"

  /** The pieces of `s` between separators, empty pieces included: `"a//b/"` gives `a`, ``, `b`, ``. */
  function Pieces(s: string): (r: seq<string>)
    ensures |r| >= 1
    ensures forall i :: 0 <= i < |r| ==> '/' !in r[i]
    decreases |s|
  {
    if s == [] then [""]
    else
      var rest := Pieces(s[1..]);
      if s[0] == '/' then [""] + rest else [[s[0]] + rest[0]] + rest[1..]
  }

  /** The pieces joined back with separators. */
  function JoinPieces(pieces: seq<string>): string
    requires |pieces| >= 1
    decreases |pieces|
  {
    if |pieces| == 1 then pieces[0] else pieces[0] + "/" + JoinPieces(pieces[1..])
  }

  /** Splitting loses nothing: the pieces join back to the string. */
  lemma {:induction false} PiecesJoin(s: string)
    ensures JoinPieces(Pieces(s)) == s
    decreases |s|
  {
    if s != [] {
      PiecesJoin(s[1..]);
      var rest := Pieces(s[1..]);
      if s[0] == '/' {
        assert [s[0]] + s[1..] == s;
      } else if |rest| == 1 {
        assert [s[0]] + rest[0] == s;
      } else {
        assert ([[s[0]] + rest[0]] + rest[1..])[1..] == rest[1..];
        assert [s[0]] + (rest[0] + "/" + JoinPieces(rest[1..])) == s;
      }
    }
  }

  /** The pieces that name a directory: neither empty nor `.`. */
  function Normal(pieces: seq<string>): (r: seq<string>)
    ensures forall c :: c in r <==> c in pieces && c != "" && c != "."
    ensures |r| <= |pieces|
  {
    if pieces == [] then []
    else (if pieces[0] == "" || pieces[0] == "." then [] else [pieces[0]]) + Normal(pieces[1..])
  }

  /** The components of a relative path or of the part of an absolute one after the root. */
  function Components(s: string): (r: seq<string>)
    ensures forall i :: 0 <= i < |r| ==> r[i] != "" && r[i] != "." && '/' !in r[i]
  {
    var pieces := Pieces(s);
    assert forall c :: c in pieces ==> '/' !in c;
    var r := Normal(pieces);
    assert forall i :: 0 <= i < |r| ==> r[i] in r;
    r
  }

  /** A name starting with the separator is absolute: `push` replaces the base with it. */
  predicate Absolute(name: string)
  {
    |name| > 0 && name[0] == '/'
  }

  /** A name that is one plain component: no separator, and neither empty, `.` nor `..`. */
  predicate PlainName(name: string)
  {
    name != "" && name != "." && name != ".." && '/' !in name
  }

  /** The directory `NewVault` registers: `base_path()` with the name pushed on. */
  function VaultDir(base: seq<string>, name: string): seq<string>
  {
    if Absolute(name) then [ROOT] + Components(name) else base + Components(name)
  }

  /** A string without separators is a single piece. */
  lemma {:induction false} PiecesOfComponent(s: string)
    requires '/' !in s
    ensures Pieces(s) == [s]
    decreases |s|
  {
    if s != [] {
      PiecesOfComponent(s[1..]);
      assert [s[0]] + s[1..] == s;
    }
  }

  /**
   * A relative name stays under the base, and a plain name is exactly one component below it.
   * An absolute name leaves the base: `/x` is the directory `/x` whatever the base.
   */
  lemma VaultDirPlacement(base: seq<string>, name: string)
    ensures !Absolute(name) ==> |VaultDir(base, name)| >= |base| && VaultDir(base, name)[..|base|] == base
    ensures PlainName(name) ==> VaultDir(base, name) == base + [name]
    ensures Absolute(name) ==> VaultDir(base, name)[0] == ROOT
  {
    if PlainName(name) {
      PiecesOfComponent(name);
    }
  }

  /** Every registered name maps to its own directory under `base`. */
  predicate Laid(base: seq<string>, registry: Registry)
  {
    forall name :: name in registry ==> registry[name] == VaultDir(base, name)
  }

  /** The messages answered by the registry alone, without asking a vault for a reply. */
  predicate RegistryMessage(message: ManagerMessage)
  {
    !message.VaultMessage? && !message.Info?
  }

  /** The in-memory map, the map last written to the configuration file, and the reply. */
  datatype Registered = Registered(registry: Registry, persisted: Registry, result: Result<Output, Error>)

  /**
   * `config.save()` after an update: the configuration file takes the new map when it is
   * writable; otherwise the update stays in memory only and the write error is the reply.
   */
  function Persist(registry: Registry, persisted: Registry, writable: bool): Registered
  {
    if writable then Registered(registry, registry, Ok(Nothing))
    else Registered(registry, persisted, Err(WriteError))
  }

  /** `VaultManager::receive` for the messages the registry answers alone. */
  ghost function Step(base: seq<string>, removal: Removal, writable: bool,
                      registry: Registry, persisted: Registry, message: ManagerMessage): Registered
    requires RegistryMessage(message)
  {
    match message
    case Empty => Registered(registry, persisted, Ok(Nothing))
    case NewVault(name) =>
      if name in registry then Registered(registry, persisted, Err(VaultExists))
      else Persist(registry[name := VaultDir(base, name)], persisted, writable)
    case DeleteVault(name, password) =>
      if name !in registry then Registered(registry, persisted, Err(VaultDoesNotExist))
      else (match removal.delete(registry[name], password)
            case Fail(e) => Registered(registry, persisted, Err(e))
            case Pass => Persist(registry - {name}, persisted, writable))
    case DeleteEmptyVault(name) =>
      if name !in registry then Registered(registry, persisted, Err(VaultDoesNotExist))
      else (match removal.deleteEmpty(registry[name])
            case Fail(e) => Registered(registry, persisted, Err(e))
            case Pass => Persist(registry - {name}, persisted, writable))
    case List => Registered(registry, persisted, Ok(Output.List(SortedKeys(registry.Keys))))
  }

  /** The schema of each name in `names` that is registered and whose schema file reads. */
  function SchemasOf(files: FileMap, registry: Registry, names: set<string>): map<string, Schemas.Schema>
  {
    map name | name in names && name in registry && ReadSchema(files, registry[name]).Ok?
      :: ReadSchema(files, registry[name]).value
  }

  /**
   * The reply to `Info`: the schema of every registered vault, or the panic of the first
   * vault whose schema file is malformed.
   */
  function InfoOf(files: FileMap, registry: Registry): Result<Output, Error>
  {
    if exists name :: name in registry && ReadSchema(files, registry[name]).Err? then Err(Panic)
    else Ok(Output.Info(SchemasOf(files, registry, registry.Keys)))
  }

  /** `NewVault`: a fresh name is registered under its own directory, a taken one is refused. */
  lemma NewVaultRegisters(base: seq<string>, removal: Removal, writable: bool,
                          registry: Registry, persisted: Registry, name: string)
    ensures var s := Step(base, removal, writable, registry, persisted, NewVault(name));
      name in s.registry &&
      (name in registry ==> s == Registered(registry, persisted, Err(VaultExists))) &&
      (name !in registry ==>
         s.registry[name] == VaultDir(base, name) && s.registry - {name} == registry &&
         (s.result.Ok? <==> writable))
  {
    if name !in registry {
      assert registry[name := VaultDir(base, name)] - {name} == registry;
    }
  }

  /**
   * DeleteVault: the name leaves the registry exactly when it was registered and the vault's
   * deletion succeeded; every other registration is untouched, and the reply is Ok only
   * when the configuration was written too.
   */
  lemma DeleteUnregisters(base: seq<string>, removal: Removal, writable: bool,
                          registry: Registry, persisted: Registry, name: string, password: Password)
    ensures var s := Step(base, removal, writable, registry, persisted, DeleteVault(name, password));
      (name in s.registry <==> name in registry && removal.delete(registry[name], password).Fail?) &&
      (forall other :: other != name ==> (other in s.registry <==> other in registry)) &&
      (forall other :: other != name && other in registry ==> s.registry[other] == registry[other]) &&
      (name !in registry ==> s.result == Err(VaultDoesNotExist)) &&
      (name in registry && removal.delete(registry[name], password).Fail? ==>
         s == Registered(registry, persisted, Err(removal.delete(registry[name], password).error))) &&
      (s.result.Ok? <==> name in registry && removal.delete(registry[name], password).Pass? && writable)
  {
  }

  /** DeleteEmptyVault follows the same order: the directory goes first, the name after. */
  lemma DeleteEmptyUnregisters(base: seq<string>, removal: Removal, writable: bool,
                               registry: Registry, persisted: Registry, name: string)
    ensures var s := Step(base, removal, writable, registry, persisted, DeleteEmptyVault(name));
      (name in s.registry <==> name in registry && removal.deleteEmpty(registry[name]).Fail?) &&
      (forall other :: other != name ==> (other in s.registry <==> other in registry)) &&
      (forall other :: other != name && other in registry ==> s.registry[other] == registry[other]) &&
      (name !in registry ==> s.result == Err(VaultDoesNotExist)) &&
      (s.result.Ok? <==> name in registry && removal.deleteEmpty(registry[name]).Pass? && writable)
  {
  }

  /** `List`: the registered names, each once, in ascending order; nothing changes. */
  lemma ListNames(base: seq<string>, removal: Removal, writable: bool,
                  registry: Registry, persisted: Registry)
    ensures var s := Step(base, removal, writable, registry, persisted, ManagerMessage.List);
      s.registry == registry && s.persisted == persisted &&
      s.result.Ok? && s.result.value.List? &&
      StrictlySorted(s.result.value.names) &&
      (forall name :: name in s.result.value.names <==> name in registry)
  {
  }

  /** Every registry message keeps each registered name in its own directory under `base`. */
  lemma StepKeepsLayout(base: seq<string>, removal: Removal, writable: bool,
                        registry: Registry, persisted: Registry, message: ManagerMessage)
    requires RegistryMessage(message)
    requires Laid(base, registry)
    ensures Laid(base, Step(base, removal, writable, registry, persisted, message).registry)
  {
  }

  /** Every registered name is one plain component. */
  predicate PlainNames(registry: Registry)
  {
    forall name :: name in registry ==> PlainName(name)
  }

  /**
   * In a laid-out registry of plain names, two names never share a save directory, so no two
   * registered vaults share a vault, schema or record file.
   */
  lemma LaidSeparates(base: seq<string>, registry: Registry, a: string, b: string, t: Timestamp, u: Timestamp)
    requires Laid(base, registry) && PlainNames(registry)
    requires a in registry && b in registry && a != b
    ensures registry[a] != registry[b]
    ensures VaultPath(registry[a]) != VaultPath(registry[b])
    ensures SchemaPath(registry[a]) != SchemaPath(registry[b])
    ensures RecordPath(registry[a], t) != RecordPath(registry[b], u)
  {
    VaultDirPlacement(base, a);
    VaultDirPlacement(base, b);
    assert registry[a][|base|] == a && registry[b][|base|] == b;
    assert VaultPath(registry[a]).folder[|base|] == a && VaultPath(registry[b]).folder[|base|] == b;
    assert SchemaPath(registry[a]).folder[|base|] == a && SchemaPath(registry[b]).folder[|base|] == b;
    assert RecordPath(registry[a], t).folder[|base|] == a && RecordPath(registry[b], u).folder[|base|] == b;
  }

  /**
   * As written: `NewVault("a")` then `NewVault("a/")` both succeed and register two names for
   * one directory, so the two vaults share every file.
   */
  lemma NewVaultAliases(base: seq<string>, removal: Removal)
    ensures var s1 := Step(base, removal, true, map[], map[], NewVault("a"));
      var s2 := Step(base, removal, true, s1.registry, s1.persisted, NewVault("a/"));
      s1.result == Ok(Nothing) && s2.result == Ok(Nothing) &&
      "a" in s2.registry && "a/" in s2.registry && "a" != "a/" &&
      VaultPath(s2.registry["a"]) == VaultPath(s2.registry["a/"]) &&
      SchemaPath(s2.registry["a"]) == SchemaPath(s2.registry["a/"])
  {
    PiecesOfComponent("a");
    assert "a/"[1..] == "/" && "/"[1..] == [];
    assert Pieces("/") == ["", ""];
    assert Pieces("a/") == ["a", ""];
    assert Components("a/") == ["a"];
  }

  /** The evident intent: `NewVault` refuses a name that is not one plain component. */
  ghost function CheckedStep(base: seq<string>, removal: Removal, writable: bool,
                             registry: Registry, persisted: Registry, message: ManagerMessage): Registered
    requires RegistryMessage(message)
  {
    if message.NewVault? && !PlainName(message.name) then Registered(registry, persisted, Err(InvalidName))
    else Step(base, removal, writable, registry, persisted, message)
  }

  /**
   * Corrected: the checked registry keeps its names plain and laid out, so every registered
   * vault keeps a save directory of its own.
   */
  lemma CheckedStepSeparates(base: seq<string>, removal: Removal, writable: bool,
                             registry: Registry, persisted: Registry, message: ManagerMessage)
    requires RegistryMessage(message)
    requires Laid(base, registry) && PlainNames(registry)
    ensures var s := CheckedStep(base, removal, writable, registry, persisted, message);
      Laid(base, s.registry) && PlainNames(s.registry) &&
      forall a, b :: a in s.registry && b in s.registry && a != b ==> s.registry[a] != s.registry[b]
  {
    var s := CheckedStep(base, removal, writable, registry, persisted, message);
    StepKeepsLayout(base, removal, writable, registry, persisted, message);
    forall a, b | a in s.registry && b in s.registry && a != b
      ensures s.registry[a] != s.registry[b]
    {
      LaidSeparates(base, s.registry, a, b, 0, 0);
    }
  }

  /** One more vault's schema collected. */
  lemma SchemasOfAdd(files: FileMap, registry: Registry, seen: set<string>, name: string)
    requires name in registry && ReadSchema(files, registry[name]).Ok?
    ensures SchemasOf(files, registry, seen + {name}) ==
            SchemasOf(files, registry, seen)[name := ReadSchema(files, registry[name]).value]
  {
  }

  /** A malformed schema file in any registered vault makes `Info` panic. */
  lemma InfoPanics(files: FileMap, registry: Registry, name: string)
    requires name in registry && ReadSchema(files, registry[name]).Err?
    ensures InfoOf(files, registry) == Err(Panic)
  {
  }

  /** Every registered vault's schema collected, none of them malformed. */
  lemma SchemasOfAll(files: FileMap, registry: Registry, names: seq<string>, seen: set<string>)
    requires forall name :: name in names <==> name in registry
    requires forall name :: name in seen <==> exists k :: 0 <= k < |names| && names[k] == name
    requires forall name :: name in seen ==> name in registry && ReadSchema(files, registry[name]).Ok?
    ensures InfoOf(files, registry) == Ok(Output.Info(SchemasOf(files, registry, seen)))
  {
    assert seen == registry.Keys;
  }

  /**
   * The configuration file keeps up with the registry while it is writable; once a save
   * fails, an update that changed the map leaves it only in memory.
   */
  lemma PersistedTracks(base: seq<string>, removal: Removal, writable: bool,
                        registry: Registry, persisted: Registry, message: ManagerMessage)
    requires RegistryMessage(message)
    requires persisted == registry
    ensures var s := Step(base, removal, writable, registry, persisted, message);
      (writable ==> s.persisted == s.registry) &&
      (!writable && s.registry != registry ==> s.persisted != s.registry && s.result == Err(WriteError))
  {
  }

  /**
   * `Info` skips no vault: with no malformed schema file, it holds every registered name,
   * each with its schema (the empty schema when the file is missing).
   */
  lemma InfoCoversRegistry(files: FileMap, registry: Registry)
    ensures InfoOf(files, registry).Err? <==>
      exists name :: name in registry && SchemaPath(registry[name]) in files &&
                     !files[SchemaPath(registry[name])].SchemaDoc?
    ensures InfoOf(files, registry).Ok? ==>
      var info := InfoOf(files, registry).value.info;
      info.Keys == registry.Keys &&
      forall name :: name in registry && SchemaPath(registry[name]) !in files ==> info[name] == Schemas.Schema(map[])
  {
    if InfoOf(files, registry).Ok? {
      var info := InfoOf(files, registry).value.info;
      forall name | name in registry
        ensures name in info
      {
        assert ReadSchema(files, registry[name]).Ok?;
      }
    }
  }

  /** `VaultManager`: the registry, the configuration file's copy of it, and the vaults' disk. */
  class VaultManager {
    var registry: Registry
    var persisted: Registry
    /** `utils::base_path()`. */
    const base: seq<string>
    /** Whether `config.save()` can write the configuration file. */
    const writable: bool
    const removal: Removal
    const env: Env
    const store: FileStore

    /** `VaultManager::new`: the loaded configuration is both the map and the saved copy. */
    constructor (registry: Registry, base: seq<string>, writable: bool, removal: Removal, env: Env, store: FileStore)
      ensures this.registry == registry && this.persisted == registry
      ensures this.base == base && this.writable == writable && this.removal == removal
      ensures this.env == env && this.store == store
    {
      this.registry := registry;
      this.persisted := registry;
      this.base := base;
      this.writable := writable;
      this.removal := removal;
      this.env := env;
      this.store := store;
    }

    /** `config.save()`. */
    method SaveConfig() returns (r: Result<Output, Error>)
      modifies this
      ensures Registered(registry, persisted, r) == Persist(old(registry), old(persisted), writable)
    {
      if !writable {
        return Err(WriteError);
      }
      persisted := registry;
      r := Ok(Nothing);
    }

    /** Iteration over `config.map`: every registered name once, in ascending order. */
    method RegisteredNames() returns (names: seq<string>)
      ensures forall name :: name in names <==> name in registry
      ensures |names| == |registry|
    {
      names := SortKeys(registry.Keys);
    }

    /** `VaultInterface::new(path).receive(Message::Schema)`. */
    method AskSchema(dir: seq<string>, d: Draws) returns (reply: Result<Output, Error>)
      modifies store
      ensures store.files == old(store.files)
      ensures reply == (if ReadSchema(store.files, dir).Ok? then Ok(SchemaOf(ReadSchema(store.files, dir).value)) else Err(Panic))
    {
      var iface := new VaultInterface(env, store, dir);
      reply := iface.Receive(Schema, d);
    }

    /**
     * The `Info` loop: the vaults are asked for their schema in name order; a schema is kept
     * for each `Output::Schema` reply, and a panic in any vault aborts the request.
     */
    method CollectInfo(d: Draws) returns (r: Result<Output, Error>)
      modifies store
      ensures store.files == old(store.files)
      ensures r == InfoOf(store.files, registry)
    {
      var names := RegisteredNames();
      var info := new Infos.Info.FromMap(map[]);
      ghost var seen: set<string> := {};
      for i := 0 to |names|
        invariant store.files == old(store.files)
        invariant forall name :: name in seen <==> exists k :: 0 <= k < i && names[k] == name
        invariant forall name :: name in seen ==> name in registry && ReadSchema(store.files, registry[name]).Ok?
        invariant info.data == SchemasOf(store.files, registry, seen)
      {
        var name := names[i];
        var reply := AskSchema(registry[name], d);
        // A Schema request is answered with `Output::Schema` or a panic, so the `if let`
        // never skips a vault: the panic aborts the whole request.
        if reply.Ok? && reply.value.SchemaOf? {
          info.Insert(name, reply.value.schema);
          SchemasOfAdd(store.files, registry, seen, name);
          seen := seen + {name};
        } else {
          InfoPanics(store.files, registry, name);
          return Err(Panic);
        }
      }
      SchemasOfAll(store.files, registry, names, seen);
      r := Ok(Output.Info(info.data));
    }

    /** `VaultManager::receive`. */
    method Receive(message: ManagerMessage, d: Draws) returns (r: Result<Output, Error>)
      modifies this, store
      ensures RegistryMessage(message) ==>
        Registered(registry, persisted, r) == Step(base, removal, writable, old(registry), old(persisted), message) &&
        store.files == old(store.files)
      ensures message.VaultMessage? || message.Info? ==> registry == old(registry) && persisted == old(persisted)
      ensures message.VaultMessage? && message.name !in registry ==>
        r == Err(VaultDoesNotExist) && store.files == old(store.files)
      ensures message.VaultMessage? && message.name in registry ==>
        Answered(env, store.locked, registry[message.name], old(store.files), store.files, message.message, d, r)
      ensures message.Info? ==> store.files == old(store.files) && r == InfoOf(store.files, registry)
    {
      match message {
        case Empty =>
          r := Ok(Nothing);
        case NewVault(name) =>
          if name in registry {
            return Err(VaultExists);
          }
          registry := registry[name := VaultDir(base, name)];
          r := SaveConfig();
        case DeleteVault(name, password) =>
          if name !in registry {
            return Err(VaultDoesNotExist);
          }
          var deleted := removal.delete(registry[name], password);
          if deleted.Fail? {
            return Err(deleted.error);
          }
          registry := registry - {name};
          r := SaveConfig();
        case DeleteEmptyVault(name) =>
          if name !in registry {
            return Err(VaultDoesNotExist);
          }
          var deleted := removal.deleteEmpty(registry[name]);
          if deleted.Fail? {
            return Err(deleted.error);
          }
          registry := registry - {name};
          r := SaveConfig();
        case VaultMessage(name, forwarded) =>
          if name !in registry {
            return Err(VaultDoesNotExist);
          }
          var iface := new VaultInterface(env, store, registry[name]);
          r := iface.Receive(forwarded, d);
        case List =>
          var names := SortKeys(registry.Keys);
          r := Ok(Output.List(names));
        case Info =>
          r := CollectInfo(d);
      }
    }
  }
}
