/** The configuration of the application (flask_dynamic_secrets_app/config.py):
    the `Config` class whose database fields are read from the credentials
    and rebuilt by `reload`. */
module Configuration {
  import opened Wrappers
  import opened Text
  import opened Loader
  import opened SecretsDirs

  /** The four database fields of `Config`. */
  datatype DatabaseSettings = DatabaseSettings(
    host: Option<string>,
    user: Option<string>,
    password: Option<string>,
    name: Option<string>)

  /** The database fields as read from a loader's credentials:
      DATABASE_HOST from MYSQL_HOSTNAME, DATABASE_USER from MYSQL_USERNAME,
      DATABASE_PASSWORD from MYSQL_PASSWORD, DATABASE_NAME from MYSQL_DB. */
  function SettingsFrom(secrets: map<string, string>): DatabaseSettings
  {
    DatabaseSettings(
      Get(secrets, "MYSQL_HOSTNAME"),
      Get(secrets, "MYSQL_USERNAME"),
      Get(secrets, "MYSQL_PASSWORD"),
      Get(secrets, "MYSQL_DB"))
  }

  /** A field is `None` exactly when no secret directory holds the file it
      is read from; nothing rejects a missing credential. Otherwise it is the
      stripped content of that file in the last directory holding it. */
  lemma {:induction false} SettingsFromFiles(env: Option<string>, fs: FileSystem)
    requires Load(fs, ParseSecretsDirs(env)).Success?
    ensures var s, dirs := SettingsFrom(Load(fs, ParseSecretsDirs(env)).value), ParseSecretsDirs(env);
      && (s.host == None <==> forall i :: 0 <= i < |dirs| ==> "MYSQL_HOSTNAME" !in Names(fs, dirs[i]))
      && (s.user == None <==> forall i :: 0 <= i < |dirs| ==> "MYSQL_USERNAME" !in Names(fs, dirs[i]))
      && (s.password == None <==> forall i :: 0 <= i < |dirs| ==> "MYSQL_PASSWORD" !in Names(fs, dirs[i]))
      && (s.name == None <==> forall i :: 0 <= i < |dirs| ==> "MYSQL_DB" !in Names(fs, dirs[i]))
    ensures var s, dirs := SettingsFrom(Load(fs, ParseSecretsDirs(env)).value), ParseSecretsDirs(env);
      && (forall i :: LastHolder(fs, dirs, i, "MYSQL_HOSTNAME") ==>
            EntryAt(fs, dirs[i], "MYSQL_HOSTNAME").File? && s.host == Some(Strip(EntryAt(fs, dirs[i], "MYSQL_HOSTNAME").content)))
      && (forall i :: LastHolder(fs, dirs, i, "MYSQL_USERNAME") ==>
            EntryAt(fs, dirs[i], "MYSQL_USERNAME").File? && s.user == Some(Strip(EntryAt(fs, dirs[i], "MYSQL_USERNAME").content)))
      && (forall i :: LastHolder(fs, dirs, i, "MYSQL_PASSWORD") ==>
            EntryAt(fs, dirs[i], "MYSQL_PASSWORD").File? && s.password == Some(Strip(EntryAt(fs, dirs[i], "MYSQL_PASSWORD").content)))
      && (forall i :: LastHolder(fs, dirs, i, "MYSQL_DB") ==>
            EntryAt(fs, dirs[i], "MYSQL_DB").File? && s.name == Some(Strip(EntryAt(fs, dirs[i], "MYSQL_DB").content)))
  {
    var dirs := ParseSecretsDirs(env);
    GetFromFiles(fs, dirs, "MYSQL_HOSTNAME");
    GetFromFiles(fs, dirs, "MYSQL_USERNAME");
    GetFromFiles(fs, dirs, "MYSQL_PASSWORD");
    GetFromFiles(fs, dirs, "MYSQL_DB");
  }

  /** What the database fields are after `reload` from `before`: rebuilt from
      the freshly loaded credentials, or left as they were when loading raised. */
  function Reloaded(before: DatabaseSettings, env: Option<string>, fs: FileSystem): DatabaseSettings
  {
    match Load(fs, ParseSecretsDirs(env))
    case Failure(_) => before
    case Success(secrets) => SettingsFrom(secrets)
  }

  /** Reloading twice over unchanged directories gives what reloading once gave. */
  lemma {:induction false} ReloadIdempotent(before: DatabaseSettings, env: Option<string>, fs: FileSystem)
    ensures Reloaded(Reloaded(before, env, fs), env, fs) == Reloaded(before, env, fs)
  {
  }

  /** `load_secrets()`: a loader over the parsed SECRETS_DIRS, or the error
      its construction raises. */
  method LoadSecrets(env: Option<string>, fs: FileSystem) returns (r: Result<SecretsLoader, LoadError>)
    ensures r.Failure? <==> Load(fs, ParseSecretsDirs(env)).Failure?
    ensures r.Failure? ==> r.error == Load(fs, ParseSecretsDirs(env)).error
    ensures r.Success? ==>
      && fresh(r.value)
      && r.value.secretsDirs == ParseSecretsDirs(env)
      && r.value.secrets == Load(fs, ParseSecretsDirs(env)).value
  {
    r := NewSecretsLoader(ParseSecretsDirs(env), fs);
  }

  /** The `Config` class: its loader and the database fields read from it.
      SECRET_KEY is not among its fields. */
  class Config {
    var secretsLoader: SecretsLoader
    var databaseHost: Option<string>
    var databaseUser: Option<string>
    var databasePassword: Option<string>
    var databaseName: Option<string>

    function Settings(): DatabaseSettings
      reads this
    {
      DatabaseSettings(databaseHost, databaseUser, databasePassword, databaseName)
    }

    /** The class body after its first line: every field read from `loader`. */
    constructor FromLoader(loader: SecretsLoader)
      ensures secretsLoader == loader
      ensures Settings() == SettingsFrom(loader.secrets)
    {
      secretsLoader := loader;
      new;
      ReadFields(loader);
    }

    /** The assignments shared by the class body and `reload`: the loader,
        then each database field from its credential. */
    method ReadFields(loader: SecretsLoader)
      modifies this
      ensures secretsLoader == loader
      ensures Settings() == SettingsFrom(loader.secrets)
    {
      secretsLoader := loader;
      databaseHost := secretsLoader.GetCredential("MYSQL_HOSTNAME");
      databaseUser := secretsLoader.GetCredential("MYSQL_USERNAME");
      databasePassword := secretsLoader.GetCredential("MYSQL_PASSWORD");
      databaseName := secretsLoader.GetCredential("MYSQL_DB");
    }

    /** `reload`: build a new loader, then assign `secrets_loader` and the
        four fields one after another. When building the loader raises,
        nothing has been assigned. */
    method Reload(env: Option<string>, fs: FileSystem) returns (failure: Option<LoadError>)
      modifies this
      ensures Settings() == Reloaded(old(Settings()), env, fs)
      ensures failure.Some? <==> Load(fs, ParseSecretsDirs(env)).Failure?
      ensures failure.Some? ==>
        && failure.value == Load(fs, ParseSecretsDirs(env)).error
        && secretsLoader == old(secretsLoader)
      ensures failure.None? ==>
        && fresh(secretsLoader)
        && secretsLoader.secretsDirs == ParseSecretsDirs(env)
        && secretsLoader.secrets == Load(fs, ParseSecretsDirs(env)).value
        && Settings() == SettingsFrom(secretsLoader.secrets)
    {
      var loaded := LoadSecrets(env, fs);
      if loaded.Failure? {
        return Some(loaded.error);
      }
      ReadFields(loaded.value);
      return None;
    }
  }

  /** Defining the `Config` class at import: load the secrets, then read the
      fields; a loading error propagates and no class comes into being. */
  method InitConfig(env: Option<string>, fs: FileSystem) returns (r: Result<Config, LoadError>)
    ensures r.Failure? <==> Load(fs, ParseSecretsDirs(env)).Failure?
    ensures r.Failure? ==> r.error == Load(fs, ParseSecretsDirs(env)).error
    ensures r.Success? ==>
      && fresh(r.value) && fresh(r.value.secretsLoader)
      && r.value.secretsLoader.secretsDirs == ParseSecretsDirs(env)
      && r.value.secretsLoader.secrets == Load(fs, ParseSecretsDirs(env)).value
      && r.value.Settings() == SettingsFrom(Load(fs, ParseSecretsDirs(env)).value)
  {
    var loaded := LoadSecrets(env, fs);
    if loaded.Failure? {
      return Failure(loaded.error);
    }
    var config := new Config.FromLoader(loaded.value);
    return Success(config);
  }
}
