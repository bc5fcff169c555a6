/** The secrets loader: every regular file of every secret directory becomes
    one credential, keyed by file name, valued by its stripped content. The
    filesystem is an input: `os.listdir` and `open(...).read()` are lookups
    in a `FileSystem` value. */
module Loader {
  import opened Wrappers
  import opened Text

  /** What opening and reading a name returned by `os.listdir` yields. */
  datatype Entry =
    | File(content: string)  // a regular file that reads as text
    | Subdirectory           // `open` raises IsADirectoryError
    | Unopenable             // vanished since the listing, not permitted, or not text: `open`/`read` raises

  /** What `os.listdir` finds at a path that exists. */
  datatype Directory = Unreadable | Listing(entries: map<string, Entry>)

  /** The directories by path; a path that is not a key does not exist. */
  type FileSystem = map<string, Directory>

  /** Why construction of a loader raised: the directory being processed
      could not be listed, or one of its entries could not be read. */
  datatype LoadError = DirectoryUnavailable(directory: string) | EntryUnreadable(directory: string)

  /** `os.listdir(path)`: the entries, or `None` where it raises (the empty
      path, a missing path, an unreadable directory). */
  function ListDir(fs: FileSystem, path: string): Option<map<string, Entry>>
  {
    if path != "" && path in fs && fs[path].Listing? then Some(fs[path].entries) else None
  }

  /** The names `os.listdir(path)` returns, or none where it raises. */
  function Names(fs: FileSystem, path: string): set<string>
  {
    if ListDir(fs, path).Some? then ListDir(fs, path).value.Keys else {}
  }

  /** The entry at `name` in `path`, for a name in `Names(fs, path)`. */
  function EntryAt(fs: FileSystem, path: string, name: string): Entry
    requires name in Names(fs, path)
  {
    ListDir(fs, path).value[name]
  }

  /** Every listed name opens as a regular file. */
  predicate AllFiles(entries: map<string, Entry>)
  {
    forall n :: n in entries ==> entries[n].File?
  }

  /** The stripped contents of the files among `names`. */
  function Stored(entries: map<string, Entry>, names: set<string>): map<string, string>
    requires names <= entries.Keys && forall n :: n in names ==> entries[n].File?
  {
    map n | n in names :: Strip(entries[n].content)
  }

  /** The credentials one directory contributes, or the error it raises. */
  function ReadDirectory(fs: FileSystem, path: string): Result<map<string, string>, LoadError>
  {
    match ListDir(fs, path)
    case None => Failure(DirectoryUnavailable(path))
    case Some(entries) =>
      if AllFiles(entries) then Success(Stored(entries, entries.Keys))
      else Failure(EntryUnreadable(path))
  }

  /** A directory is read in full exactly when it can be listed and every
      name in it is a regular file; its credentials are then its names, each
      with the stripped content of its file. */
  lemma {:induction false} ReadDirectoryOutcome(fs: FileSystem, path: string)
    ensures ReadDirectory(fs, path).Success? <==> ListDir(fs, path).Some? && AllFiles(ListDir(fs, path).value)
    ensures ListDir(fs, path).None? ==> ReadDirectory(fs, path) == Failure(DirectoryUnavailable(path))
    ensures ReadDirectory(fs, path).Failure? && ListDir(fs, path).Some? ==> ReadDirectory(fs, path).error == EntryUnreadable(path)
    ensures ReadDirectory(fs, path).Success? ==>
      && ReadDirectory(fs, path).value.Keys == Names(fs, path)
      && forall n :: n in ReadDirectory(fs, path).value ==> ReadDirectory(fs, path).value[n] == Strip(EntryAt(fs, path, n).content)
  {
  }

  /** One more directory on top of what the earlier ones loaded: its names
      replace theirs; the first error stays. */
  function Extend(earlier: Result<map<string, string>, LoadError>, fs: FileSystem, path: string): Result<map<string, string>, LoadError>
  {
    match earlier
    case Failure(e) => Failure(e)
    case Success(loaded) =>
      match ReadDirectory(fs, path)
      case Failure(e) => Failure(e)
      case Success(latest) => Success(loaded + latest)
  }

  /** What the loader's constructor leaves in `secrets`, or the error it
      raises: the directories folded in list order into one map. */
  function Load(fs: FileSystem, dirs: seq<string>): Result<map<string, string>, LoadError>
    decreases |dirs|
  {
    if dirs == [] then Success(map[])
    else Extend(Load(fs, dirs[..|dirs| - 1]), fs, dirs[|dirs| - 1])
  }

  /** The credential the application's secret key is read from. */
  const SecretKey: string := "SECRET_KEY"

  /** `dict.get(key)`. */
  function Get(m: map<string, string>, key: string): Option<string>
  {
    if key in m then Some(m[key]) else None
  }

  /** Loading succeeds exactly when every directory can be read in full. */
  lemma {:induction false} LoadSucceeds(fs: FileSystem, dirs: seq<string>)
    ensures Load(fs, dirs).Success? <==> forall i :: 0 <= i < |dirs| ==> ReadDirectory(fs, dirs[i]).Success?
    decreases |dirs|
  {
    if dirs != [] {
      var init, last := dirs[..|dirs| - 1], dirs[|dirs| - 1];
      assert init + [last] == dirs;
      LoadAppend(fs, init, last);
      LoadSucceeds(fs, init);
      assert forall i :: 0 <= i < |init| ==> init[i] == dirs[i];
    }
  }

  /** A failure is the error of the first directory that cannot be read. */
  lemma {:induction false} LoadFailsAtFirst(fs: FileSystem, dirs: seq<string>)
    requires Load(fs, dirs).Failure?
    ensures exists i ::
      && 0 <= i < |dirs| && ReadDirectory(fs, dirs[i]).Failure?
      && Load(fs, dirs).error == ReadDirectory(fs, dirs[i]).error
      && forall j :: 0 <= j < i ==> ReadDirectory(fs, dirs[j]).Success?
    decreases |dirs|
  {
    var init, last := dirs[..|dirs| - 1], dirs[|dirs| - 1];
    assert init + [last] == dirs;
    LoadAppend(fs, init, last);
    if Load(fs, init).Failure? {
      LoadFailsAtFirst(fs, init);
      var i :| 0 <= i < |init| && ReadDirectory(fs, init[i]).Failure?
        && Load(fs, init).error == ReadDirectory(fs, init[i]).error
        && forall j :: 0 <= j < i ==> ReadDirectory(fs, init[j]).Success?;
      assert init[i] == dirs[i];
      assert forall j :: 0 <= j < i ==> init[j] == dirs[j];
    } else {
      LoadSucceeds(fs, init);
      assert forall j :: 0 <= j < |init| ==> init[j] == dirs[j];
      assert ReadDirectory(fs, dirs[|dirs| - 1]).Failure?;
    }
  }

  /** The loaded names are exactly the names listed in any directory. */
  lemma {:induction false} LoadKeys(fs: FileSystem, dirs: seq<string>)
    requires Load(fs, dirs).Success?
    ensures forall k :: k in Load(fs, dirs).value <==> exists i :: 0 <= i < |dirs| && k in Names(fs, dirs[i])
    decreases |dirs|
  {
    if dirs != [] {
      var init := dirs[..|dirs| - 1];
      LoadKeys(fs, init);
      assert forall i :: 0 <= i < |init| ==> init[i] == dirs[i];
      forall k
        ensures k in Load(fs, dirs).value <==> exists i :: 0 <= i < |dirs| && k in Names(fs, dirs[i])
      {
        if k in Load(fs, dirs).value && k !in Load(fs, init).value {
          assert k in Names(fs, dirs[|dirs| - 1]);
        }
        if exists i :: 0 <= i < |dirs| && k in Names(fs, dirs[i]) {
          var i :| 0 <= i < |dirs| && k in Names(fs, dirs[i]);
          if i < |init| {
            assert k in Names(fs, init[i]);
          }
        }
      }
    }
  }

  /** Last wins: a name's value comes from the last directory that lists it,
      stripped. */
  lemma {:induction false} LastWins(fs: FileSystem, dirs: seq<string>, i: nat, k: string)
    requires Load(fs, dirs).Success?
    requires i < |dirs| && k in Names(fs, dirs[i])
    requires forall j :: i < j < |dirs| ==> k !in Names(fs, dirs[j])
    ensures EntryAt(fs, dirs[i], k).File?
    ensures k in Load(fs, dirs).value && Load(fs, dirs).value[k] == Strip(EntryAt(fs, dirs[i], k).content)
    decreases |dirs|
  {
    var init, last := dirs[..|dirs| - 1], dirs[|dirs| - 1];
    assert init + [last] == dirs;
    LoadAppend(fs, init, last);
    ReadDirectoryOutcome(fs, last);
    if i == |dirs| - 1 {
      assert k in ReadDirectory(fs, last).value;
    } else {
      assert init[i] == dirs[i];
      assert forall j :: i < j < |init| ==> init[j] == dirs[j];
      LastWins(fs, init, i, k);
    }
  }

  /** Directory `i` is the last in the list that holds a file named `key`. */
  predicate LastHolder(fs: FileSystem, dirs: seq<string>, i: int, key: string)
  {
    0 <= i < |dirs| && key in Names(fs, dirs[i]) && forall j :: i < j < |dirs| ==> key !in Names(fs, dirs[j])
  }

  /** `get_credential(key)` after loading: `None` exactly when no directory
      holds a file named `key`, otherwise the stripped content of that file
      in the last directory holding it. */
  lemma {:induction false} GetFromFiles(fs: FileSystem, dirs: seq<string>, key: string)
    requires Load(fs, dirs).Success?
    ensures Get(Load(fs, dirs).value, key) == None <==> forall i :: 0 <= i < |dirs| ==> key !in Names(fs, dirs[i])
    ensures forall i :: LastHolder(fs, dirs, i, key) ==>
      && EntryAt(fs, dirs[i], key).File?
      && Get(Load(fs, dirs).value, key) == Some(Strip(EntryAt(fs, dirs[i], key).content))
  {
    LoadKeys(fs, dirs);
    forall i | LastHolder(fs, dirs, i, key)
      ensures EntryAt(fs, dirs[i], key).File?
      ensures Get(Load(fs, dirs).value, key) == Some(Strip(EntryAt(fs, dirs[i], key).content))
    {
      LastWins(fs, dirs, i, key);
    }
  }

  /** No loaded value begins or ends with whitespace. */
  lemma {:induction false} LoadedValuesTrimmed(fs: FileSystem, dirs: seq<string>)
    requires Load(fs, dirs).Success?
    ensures forall k :: k in Load(fs, dirs).value ==> Trimmed(Load(fs, dirs).value[k])
    decreases |dirs|
  {
    if dirs != [] {
      LoadedValuesTrimmed(fs, dirs[..|dirs| - 1]);
    }
  }

  /** An empty directory, wherever it stands in the list, changes nothing. */
  lemma {:induction false} EmptyDirectoryContributesNothing(fs: FileSystem, before: seq<string>, empty: string, after: seq<string>)
    requires ListDir(fs, empty) == Some(map[])
    ensures Load(fs, before + [empty] + after) == Load(fs, before + after)
    decreases |after|
  {
    if after == [] {
      assert before + [empty] + after == before + [empty];
      assert before + after == before;
      EmptyDirectoryLast(fs, before, empty);
    } else {
      var shorter, last := after[..|after| - 1], after[|after| - 1];
      EmptyDirectoryContributesNothing(fs, before, empty, shorter);
      LoadAppend(fs, before + [empty] + shorter, last);
      LoadAppend(fs, before + shorter, last);
      assert before + [empty] + shorter + [last] == before + [empty] + after;
      assert before + shorter + [last] == before + after;
    }
  }

  lemma {:induction false} EmptyDirectoryLast(fs: FileSystem, before: seq<string>, empty: string)
    requires ListDir(fs, empty) == Some(map[])
    ensures Load(fs, before + [empty]) == Load(fs, before)
  {
    LoadAppend(fs, before, empty);
    assert ReadDirectory(fs, empty) == Success(map[]);
    if Load(fs, before).Success? {
      assert Load(fs, before).value + map[] == Load(fs, before).value;
    }
  }

  lemma {:induction false} LoadAppend(fs: FileSystem, dirs: seq<string>, path: string)
    ensures Load(fs, dirs + [path]) == Extend(Load(fs, dirs), fs, path)
  {
    assert (dirs + [path])[..|dirs|] == dirs;
  }

  /** The loader: the directory list it was given and the credentials it read. */
  class SecretsLoader {
    const secretsDirs: seq<string>
    var secrets: map<string, string>

    /** The attribute assignments of `__init__`, before loading starts. */
    constructor Init(secretsDirs: seq<string>)
      ensures this.secretsDirs == secretsDirs && secrets == map[]
    {
      this.secretsDirs := secretsDirs;
      secrets := map[];
    }

    /** `load_secrets`: the directories in list order, each stored by
        `StoreDirectory`. The first directory or entry that cannot be read
        stops the loop with its error; nothing is skipped. */
    method LoadSecrets(fs: FileSystem) returns (failure: Option<LoadError>)
      modifies this`secrets
      ensures Load(fs, secretsDirs).Success? ==> failure == None && secrets == old(secrets) + Load(fs, secretsDirs).value
      ensures Load(fs, secretsDirs).Failure? ==> failure == Some(Load(fs, secretsDirs).error)
    {
      failure := None;
      var i := 0;
      while i < |secretsDirs|
        invariant 0 <= i <= |secretsDirs|
        invariant failure == None
        invariant Load(fs, secretsDirs[..i]).Success?
        invariant secrets == old(secrets) + Load(fs, secretsDirs[..i]).value
      {
        assert secretsDirs[..i + 1] == secretsDirs[..i] + [secretsDirs[i]];
        LoadAppend(fs, secretsDirs[..i], secretsDirs[i]);
        failure := StoreDirectory(fs, secretsDirs[i]);
        if failure.Some? {
          LoadPrefixFails(fs, secretsDirs, i + 1);
          return;
        }
        UnionAssociates(old(secrets), Load(fs, secretsDirs[..i]).value, ReadDirectory(fs, secretsDirs[i]).value);
        i := i + 1;
      }
      assert secretsDirs[..i] == secretsDirs;
    }

    /** One pass of the outer loop of `load_secrets`: list `directory`, then
        for each name in listing order store the stripped file content under
        the name, stopping at the first entry that cannot be read. The files
        stored before that entry stay stored; which they are depends on the
        listing order. */
    method StoreDirectory(fs: FileSystem, directory: string) returns (failure: Option<LoadError>)
      modifies this`secrets
      ensures ReadDirectory(fs, directory).Success? ==> failure == None && secrets == old(secrets) + ReadDirectory(fs, directory).value
      ensures ReadDirectory(fs, directory).Failure? ==> failure == Some(ReadDirectory(fs, directory).error)
      ensures failure.Some? ==> old(secrets).Keys <= secrets.Keys <= old(secrets).Keys + Names(fs, directory)
      ensures failure.Some? ==> forall n :: n in secrets ==>
        || (n in old(secrets) && secrets[n] == old(secrets)[n])
        || (n in Names(fs, directory) && EntryAt(fs, directory, n).File?
            && secrets[n] == Strip(EntryAt(fs, directory, n).content))
    {
      var listing := ListDir(fs, directory);
      if listing.None? {
        return Some(DirectoryUnavailable(directory));
      }
      var entries := listing.value;
      var pending := entries.Keys;
      ghost var done: set<string> := {};
      while pending != {}
        invariant done == entries.Keys - pending
        invariant forall n :: n in done ==> entries[n].File?
        invariant secrets.Keys == old(secrets).Keys + done
        invariant forall n :: n in done ==> secrets[n] == Strip(entries[n].content)
        invariant forall n :: n in old(secrets) && n !in done ==> secrets[n] == old(secrets)[n]
        decreases pending
      {
        var filename :| filename in pending;
        var entry := entries[filename];
        if !entry.File? {
          assert !AllFiles(entries);
          return Some(EntryUnreadable(directory));
        }
        secrets := secrets[filename := Strip(entry.content)];
        pending := pending - {filename};
        done := done + {filename};
      }
      StoredAll(old(secrets), secrets, entries);
      return None;
    }

    /** `get_credential(key)`: the stored value, or `None` for a name that
        was not loaded; nothing changes. */
    method GetCredential(key: string) returns (value: Option<string>)
      ensures key in secrets ==> value == Some(secrets[key])
      ensures key !in secrets ==> value == None
    {
      value := if key in secrets then Some(secrets[key]) else None;
    }
  }

  /** The map the inner loop leaves behind, once every name is stored. */
  lemma {:induction false} StoredAll(before: map<string, string>, after: map<string, string>, entries: map<string, Entry>)
    requires forall n :: n in entries ==> entries[n].File?
    requires after.Keys == before.Keys + entries.Keys
    requires forall n :: n in entries ==> after[n] == Strip(entries[n].content)
    requires forall n :: n in before && n !in entries ==> after[n] == before[n]
    ensures after == before + Stored(entries, entries.Keys)
  {
  }

  lemma {:induction false} UnionAssociates(a: map<string, string>, b: map<string, string>, c: map<string, string>)
    ensures a + b + c == a + (b + c)
  {
  }

  /** A failing prefix makes the whole list fail with the same error. */
  lemma {:induction false} LoadPrefixFails(fs: FileSystem, dirs: seq<string>, n: nat)
    requires n <= |dirs| && Load(fs, dirs[..n]).Failure?
    ensures Load(fs, dirs).Failure? && Load(fs, dirs).error == Load(fs, dirs[..n]).error
    decreases |dirs| - n
  {
    if n < |dirs| {
      assert dirs[..n + 1][..n] == dirs[..n];
      LoadPrefixFails(fs, dirs, n + 1);
    } else {
      assert dirs[..n] == dirs;
    }
  }

  /** `SecretsLoader(secrets_dirs)`: the loader holding exactly the loaded
      credentials and the list as given, or the error construction raises. */
  method NewSecretsLoader(secretsDirs: seq<string>, fs: FileSystem) returns (r: Result<SecretsLoader, LoadError>)
    ensures r.Failure? <==> Load(fs, secretsDirs).Failure?
    ensures r.Failure? ==> r.error == Load(fs, secretsDirs).error
    ensures r.Success? ==> fresh(r.value) && r.value.secretsDirs == secretsDirs && r.value.secrets == Load(fs, secretsDirs).value
  {
    var loader := new SecretsLoader.Init(secretsDirs);
    var failure := loader.LoadSecrets(fs);
    if failure.Some? {
      return Failure(failure.value);
    }
    assert map[] + Load(fs, secretsDirs).value == Load(fs, secretsDirs).value;
    return Success(loader);
  }
}
