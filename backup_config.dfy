/** The earlier configuration (backups/config.py): one loader built when the
    module is imported, and a `Config` class whose five fields, SECRET_KEY
    among them, are read from it once and never reassigned. Being fixed at
    import, the configuration is a value here. */
module BackupConfiguration {
  import opened Wrappers
  import opened Text
  import opened Loader
  import opened SecretsDirs
  import Configuration

  /** The five class attributes of the earlier `Config`. */
  datatype BackupConfig = BackupConfig(
    secretKey: Option<string>,
    databaseHost: Option<string>,
    databaseUser: Option<string>,
    databasePassword: Option<string>,
    databaseName: Option<string>)

  /** Importing the module: the credentials of the parsed SECRETS_DIRS, read
      into the five fields, or the error that makes the import fail. */
  function ImportConfig(env: Option<string>, fs: FileSystem): (r: Result<BackupConfig, LoadError>)
    ensures r.Failure? <==> Load(fs, ParseSecretsDirs(env)).Failure?
    ensures r.Failure? ==> r.error == Load(fs, ParseSecretsDirs(env)).error
    ensures r.Success? ==>
      var secrets := Load(fs, ParseSecretsDirs(env)).value;
      && (r.value.secretKey.Some? <==> SecretKey in secrets)
      && (r.value.databaseHost.Some? <==> "MYSQL_HOSTNAME" in secrets)
      && (r.value.databaseUser.Some? <==> "MYSQL_USERNAME" in secrets)
      && (r.value.databasePassword.Some? <==> "MYSQL_PASSWORD" in secrets)
      && (r.value.databaseName.Some? <==> "MYSQL_DB" in secrets)
  {
    match Load(fs, ParseSecretsDirs(env))
    case Failure(e) => Failure(e)
    case Success(secrets) =>
      Success(BackupConfig(
        Get(secrets, SecretKey),
        Get(secrets, "MYSQL_HOSTNAME"),
        Get(secrets, "MYSQL_USERNAME"),
        Get(secrets, "MYSQL_PASSWORD"),
        Get(secrets, "MYSQL_DB")))
  }

  /** SECRET_KEY is `None` exactly when no secret directory holds a file of
      that name, and otherwise the stripped content of that file in the last
      directory holding it; a missing secret key does not stop the import. */
  lemma {:induction false} SecretKeyFromFiles(env: Option<string>, fs: FileSystem)
    requires Load(fs, ParseSecretsDirs(env)).Success?
    ensures ImportConfig(env, fs).Success?
    ensures var dirs := ParseSecretsDirs(env);
      (ImportConfig(env, fs).value.secretKey == None <==>
       forall i :: 0 <= i < |dirs| ==> SecretKey !in Names(fs, dirs[i]))
    ensures var dirs := ParseSecretsDirs(env);
      forall i :: LastHolder(fs, dirs, i, SecretKey) ==>
        && EntryAt(fs, dirs[i], SecretKey).File?
        && ImportConfig(env, fs).value.secretKey == Some(Strip(EntryAt(fs, dirs[i], SecretKey).content))
  {
    GetFromFiles(fs, ParseSecretsDirs(env), SecretKey);
  }

  /** Over the same SECRETS_DIRS and files, the four database fields of the
      earlier configuration equal those of the current `Config`. */
  lemma {:induction false} AgreesWithConfig(env: Option<string>, fs: FileSystem)
    requires Load(fs, ParseSecretsDirs(env)).Success?
    ensures var c := ImportConfig(env, fs).value;
      Configuration.SettingsFrom(Load(fs, ParseSecretsDirs(env)).value)
        == Configuration.DatabaseSettings(c.databaseHost, c.databaseUser, c.databasePassword, c.databaseName)
  {
  }
}
