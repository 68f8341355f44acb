/** `config_handler`: the host setting kept in `config.json`. The file is a
    field of the store: `None` when it does not exist, otherwise the JSON
    object it holds. Nothing is cached; every operation reads the file. */
module ConfigHandler {
  import opened Wrappers

  const ConfigFile: string := "config.json"
  const HostKey: string := "datasphere_host"

  /** Opening a file that does not exist (`FileNotFoundError`). */
  datatype FileError = FileNotFound(path: string)

  /** `config.get("datasphere_host", None)`. */
  function HostIn(config: map<string, string>): (h: Option<string>)
    ensures h.Some? <==> HostKey in config
    ensures h.Some? ==> h.value == config[HostKey]
  {
    if HostKey in config then Some(config[HostKey]) else None
  }

  /** What `get_datasphere_host` returns or raises for a file state. */
  function ReadHost(file: Option<map<string, string>>): (r: Result<Option<string>, FileError>)
    ensures r.Failure? <==> file.None?
    ensures r.Failure? ==> r.error == FileNotFound(ConfigFile)
    ensures r.Success? ==> (r.value.Some? <==> HostKey in file.value)
    ensures r.Success? && r.value.Some? ==> r.value.value == file.value[HostKey]
  {
    if file.None? then Failure(FileNotFound(ConfigFile)) else Success(HostIn(file.value))
  }

  /** The file state `set_datasphere_host(newHost)` leaves: the loaded object
      with one key replaced, or still no file when loading failed. */
  function WithHost(file: Option<map<string, string>>, newHost: string): (r: Option<map<string, string>>)
    ensures r.Some? <==> file.Some?
    ensures r.Some? ==> r.value.Keys == file.value.Keys + {HostKey} && r.value[HostKey] == newHost
    ensures r.Some? ==> forall k :: k in file.value && k != HostKey ==> r.value[k] == file.value[k]
  {
    if file.None? then None else Some(file.value[HostKey := newHost])
  }

  class ConfigStore {
    var file: Option<map<string, string>>

    constructor (file: Option<map<string, string>>)
      ensures this.file == file
    {
      this.file := file;
    }

    /** `load_config`: the whole object, or `FileNotFoundError`. */
    method LoadConfig() returns (r: Result<map<string, string>, FileError>)
      ensures file.None? ==> r == Failure(FileNotFound(ConfigFile))
      ensures file.Some? ==> r == Success(file.value)
    {
      if file.None? {
        return Failure(FileNotFound(ConfigFile));
      }
      return Success(file.value);
    }

    /** `get_datasphere_host`: the stored host, `None` when the key is
        absent, and the load error when the file is. */
    method GetDatasphereHost() returns (r: Result<Option<string>, FileError>)
      ensures r == ReadHost(file)
      ensures file.Some? ==> r.Success? && (r.value.Some? <==> HostKey in file.value)
    {
      var config := LoadConfig();
      if config.Failure? {
        return Failure(config.error);
      }
      return Success(HostIn(config.value));
    }

    /** `set_datasphere_host`: load, replace the one key, write the whole
        object back. A missing file is an error and nothing is created. */
    method SetDatasphereHost(newHost: string) returns (r: Result<(), FileError>)
      modifies this
      ensures file == WithHost(old(file), newHost)
      ensures r.Failure? <==> old(file).None?
      ensures r.Failure? ==> r.error == FileNotFound(ConfigFile)
    {
      var config := LoadConfig();
      if config.Failure? {
        return Failure(config.error);
      }
      var updated := config.value[HostKey := newHost];
      file := Some(updated);
      return Success(());
    }
  }

  /** Setting the host and reading it back gives the host that was set. */
  lemma SetThenGet(file: Option<map<string, string>>, newHost: string)
    requires file.Some?
    ensures ReadHost(WithHost(file, newHost)) == Success(Some(newHost))
  {
  }

  /** Setting the host touches no other key of the stored object. */
  lemma SetKeepsOtherKeys(file: Option<map<string, string>>, newHost: string, key: string)
    requires file.Some? && key != HostKey
    ensures WithHost(file, newHost).Some?
    ensures key in WithHost(file, newHost).value <==> key in file.value
    ensures key in file.value ==> WithHost(file, newHost).value[key] == file.value[key]
  {
  }

  /** The stored object after a set has exactly the old keys plus the host key. */
  lemma SetKeys(file: Option<map<string, string>>, newHost: string)
    requires file.Some?
    ensures WithHost(file, newHost).value.Keys == file.value.Keys + {HostKey}
  {
  }

  /** Setting the same host twice leaves what setting it once leaves. */
  lemma SetIdempotent(file: Option<map<string, string>>, newHost: string)
    ensures WithHost(WithHost(file, newHost), newHost) == WithHost(file, newHost)
  {
    if file.Some? {
      var once := file.value[HostKey := newHost];
      assert once[HostKey := newHost] == once;
    }
  }

  /** A host that is absent reads as `None`, not as an error. */
  lemma AbsentHostReadsNone(file: Option<map<string, string>>)
    requires file.Some? && HostKey !in file.value
    ensures ReadHost(file) == Success(None)
  {
  }

  /** Without a file, both operations fail and a set creates no file. */
  lemma MissingFile(newHost: string)
    ensures ReadHost(None) == Failure(FileNotFound(ConfigFile))
    ensures WithHost(None, newHost) == None
  {
  }
}
