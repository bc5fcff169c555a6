# flask-dynamic-secrets-watchdog: the secrets and configuration core in Dafny

The Flask application reads its database credentials from secret directories.
Each regular file in a directory is one credential: its name is the key and its
whitespace-stripped content is the value. The directories come from the
`SECRETS_DIRS` environment variable, a comma-separated list that defaults to
`./default/path/to/secrets`. A `SecretsLoader` reads them in list order, and a
later directory overrides an earlier one.

Four consumers build on the loader:

- The `Config` class takes the four MySQL settings from the loaded credentials
  and rebuilds them in `reload`.
- An earlier `Config` (`backups/config.py`) also reads `SECRET_KEY`.
- A watchdog handler forwards modify and delete events for non-directories
  to a callback; create and move events call nothing. The callback builds a fresh loader and refreshes `app.config['SECRET_KEY']`.
- `initialize_database` reads the connection settings from `app.config`. It
  then splits the initialisation script on `;` and executes every non-blank
  piece, reporting and skipping the ones the server rejects. Finally it
  commits and closes.

How the parts are modelled:

- The file system is a value (`Loader.FileSystem`). It maps each directory
  path either to an unreadable directory or to a listing of names. Each name
  is a regular file with its content, a subdirectory, or an entry that cannot
  be opened.
- `Loader.Load` is the specification of loading: a fold over the directory
  list into one map, or the error that stops it.
- `SecretsLoader` is a class with `secrets` as a mutable `map` field.
  `load_secrets` is a nested loop: the outer loop is `LoadSecrets` and the
  inner one is `StoreDirectory`. `LoadSecrets` is proved against `Load`,
  and `StoreDirectory` against `ReadDirectory`, one directory's part of it.
- The Python `str.strip()` and `str.split(sep)` are modelled exactly in
  module `Text`. This includes every character Python treats as whitespace
  and the rule that `"".split(",") == [""]`.
- The MySQL server is an oracle `accepts: ManageDb.Server`. It says whether
  `cursor.execute` succeeds on a statement, given the statements sent
  before it on the same connection. What `initialize_database` does
  against the connection is returned as a trace of `ManageDb.DbEvent`s.

Modules and files:

- `wrappers.dfy`: `Option` and `Result`.
- `text.dfy`: Python whitespace, `strip`, `split` and `join`.
- `secrets_loader.dfy`: the file system, `Load`, and the `SecretsLoader` class.
- `secrets_dirs.dfy`: parsing `SECRETS_DIRS`. The rule is written out four
  times in the source (twice in the watchdog file) and defined once here.
- `config.dfy`: `load_secrets()`, the `Config` class and `reload`.
- `backup_config.dfy`: the earlier, import-time-only `Config`.
- `flask_app.dfy`: `app.config` as a mutable map.
- `watchdog.dfy`: the event handler and `on_secrets_changed`.
- `managedb.dfy`: `initialize_database`.

Several features one might expect of a configuration hot-reload subsystem
are not in the code, and the model does not add them:

- versioned configuration snapshots;
- validation that the required keys are present;
- an atomic swap of the live configuration;
- debouncing of event bursts;
- skipping a file that vanishes during a read;
- tolerating subdirectories.

What the code does instead:

- A missing credential leaves its field `None` (`Configuration.SettingsFromFiles`).
- Any entry that cannot be opened makes the whole load raise.
- Every non-directory modify or delete event calls the callback once; create
  and move events call nothing, so a secret replaced by renaming a new file
  over it triggers no reload.
- `reload` assigns the fields one after another. They are untouched only
  when building the loader raises.

## Model

| member | source | states |
|---|---|---|
| Text.Strip | flask_dynamic_secrets_app/secrets_loader.py:15 | the stripped value neither begins nor ends with a Python whitespace character |
| Text.StripDecomposes | flask_dynamic_secrets_app/secrets_loader.py:15 | every string is leading whitespace, then its stripped value, then trailing whitespace |
| Text.StripUnique | flask_dynamic_secrets_app/secrets_loader.py:15 | whitespace around a trimmed core is exactly what `strip()` removes |
| Text.StripIdempotent | flask_dynamic_secrets_app/secrets_loader.py:15 | stripping twice equals stripping once |
| Text.Split | flask_dynamic_secrets_app/config.py:7 | `split(sep)` yields at least one piece and no piece contains the separator |
| Text.SplitCount | flask_dynamic_secrets_app/config.py:7 | the number of pieces is the number of separators plus one |
| Text.JoinSplit | flask_dynamic_secrets_app/config.py:7 | joining the pieces with the separator gives back the text |
| Text.SplitJoin | flask_dynamic_secrets_app/config.py:7 | separator-free pieces joined with the separator split back into the same pieces |
| Text.SplitEndsEmpty | flask_dynamic_secrets_app/managedb.py:23 | text ending with the separator has an empty last piece |
| Loader.ListDir | flask_dynamic_secrets_app/secrets_loader.py:12 | `os.listdir(directory)`: the directory's entries, or nothing for the empty path, a missing path or an unreadable directory (a definition; its consequences are stated by `ReadDirectoryOutcome`) |
| Loader.ReadDirectory | flask_dynamic_secrets_app/secrets_loader.py:12-15 | one pass of the outer loop as a value: the directory's stripped files by name, or why it cannot be read (a definition; `ReadDirectoryOutcome` states its contract) |
| Loader.Load | flask_dynamic_secrets_app/secrets_loader.py:10-15 | the whole of `load_secrets` as a value: the directories folded in list order, a later one overriding an earlier one, the first error stopping the fold (a definition; `LoadSucceeds`, `LoadFailsAtFirst`, `LoadKeys` and `LastWins` state what it means) |
| Loader.Get | flask_dynamic_secrets_app/secrets_loader.py:17-18 | `dict.get(key)`: the value under `key`, or `None` (a definition; `GetFromFiles` states what it yields after loading) |
| Loader.ReadDirectoryOutcome | flask_dynamic_secrets_app/secrets_loader.py:12-15 | one directory yields credentials iff it can be listed and every name opens as a file; its keys are the listed names and each value is the stripped content; otherwise the error names the directory and the reason |
| Loader.LoadSucceeds | flask_dynamic_secrets_app/secrets_loader.py:10-15 | loading succeeds iff every directory in the list can be read in full |
| Loader.LoadFailsAtFirst | flask_dynamic_secrets_app/secrets_loader.py:10-15 | a failed load reports the error of the first directory that cannot be read; all earlier ones could be |
| Loader.LoadKeys | flask_dynamic_secrets_app/secrets_loader.py:11-15 | a key is loaded iff some directory in the list holds a file of that name |
| Loader.LastWins | flask_dynamic_secrets_app/secrets_loader.py:11-15 | a key's value is the stripped content of its file in the last directory that holds it |
| Loader.GetFromFiles | flask_dynamic_secrets_app/secrets_loader.py:11-18 | after loading, `get_credential(key)` is `None` iff no directory holds a file named `key`, and otherwise the stripped content of that file in the last directory holding it |
| Loader.LoadedValuesTrimmed | flask_dynamic_secrets_app/secrets_loader.py:15 | no loaded value begins or ends with whitespace |
| Loader.EmptyDirectoryContributesNothing | flask_dynamic_secrets_app/secrets_loader.py:11-12 | an empty directory anywhere in the list changes neither the outcome nor the credentials |
| Loader.LoadPrefixFails | flask_dynamic_secrets_app/secrets_loader.py:11-15 | once a prefix of the list fails, the whole load fails with that error |
| Loader.SecretsLoader.Init | flask_dynamic_secrets_app/secrets_loader.py:5-7 | the loader keeps the list as given and starts with no credentials |
| Loader.SecretsLoader.LoadSecrets | flask_dynamic_secrets_app/secrets_loader.py:10-15 | on success the credentials become the old ones overridden by `Load`'s map; otherwise the error is `Load`'s error |
| Loader.SecretsLoader.StoreDirectory | flask_dynamic_secrets_app/secrets_loader.py:12-15 | one pass of the outer loop adds exactly the directory's stripped files, overriding earlier keys, or reports why the directory cannot be read; on that failure every credential is either as before or a file of the directory stored with its stripped content |
| Loader.SecretsLoader.GetCredential | flask_dynamic_secrets_app/secrets_loader.py:17-18 | the stored value for a loaded key, `None` for any other key |
| Loader.NewSecretsLoader | flask_dynamic_secrets_app/secrets_loader.py:5-8 | construction yields a fresh loader holding exactly the loaded credentials, and raises iff loading fails |
| SecretsDirs.ParseSecretsDirs | flask_dynamic_secrets_app/config.py:7-8 | the variable or its default, split on commas, each piece stripped (a definition; `DirectoryCount`, `DirectoriesTrimmed`, `DefaultSecretsDirs` and `ParseJoinedDirs` state what it yields) |
| SecretsDirs.DirectoryCount | flask_dynamic_secrets_app/config.py:7-8 | there is one directory per comma plus one; empty names are kept |
| SecretsDirs.DirectoriesTrimmed | flask_dynamic_secrets_app/config.py:8 | no directory name begins or ends with whitespace |
| SecretsDirs.StripAllAt | flask_dynamic_secrets_app/config.py:8 | the list comprehension strips each piece in place and keeps the order and length |
| SecretsDirs.DefaultSecretsDirs | flask_dynamic_secrets_app/config.py:7 | with SECRETS_DIRS unset the list is the default directory alone |
| SecretsDirs.ParseJoinedDirs | flask_dynamic_secrets_app/config.py:7-8 | trimmed, comma-free directory names joined with commas parse back to the same list |
| SecretsDirs.TrailingCommaFailsLoad | flask_dynamic_secrets_app/config.py:7-9 | a trailing comma produces an empty last directory name, and loading then fails |
| Configuration.SettingsFrom | flask_dynamic_secrets_app/config.py:15-18 | the four database fields read from the credentials MYSQL_HOSTNAME, MYSQL_USERNAME, MYSQL_PASSWORD and MYSQL_DB (a definition; `SettingsFromFiles` states what they are in terms of the files) |
| Configuration.Reloaded | flask_dynamic_secrets_app/config.py:21-28 | the database fields after `reload`: rebuilt from the fresh credentials, or as before when loading raises (a definition; `Config.Reload` is proved to reach it and `ReloadIdempotent` is stated over it) |
| Configuration.SettingsFromFiles | flask_dynamic_secrets_app/config.py:15-18 | each database field is `None` iff no secret directory holds its file, and otherwise the stripped content of that file in the last directory holding it |
| Configuration.ReloadIdempotent | flask_dynamic_secrets_app/config.py:21-28 | reloading twice over unchanged files gives the fields one reload gave |
| Configuration.LoadSecrets | flask_dynamic_secrets_app/config.py:6-9 | a fresh loader over the parsed SECRETS_DIRS, or the loading error |
| Configuration.Config.FromLoader | flask_dynamic_secrets_app/config.py:13-18 | the class body keeps the loader and reads each field from its credential |
| Configuration.Config.ReadFields | flask_dynamic_secrets_app/config.py:23-28 | the loader is replaced and each database field is read from its credential |
| Configuration.Config.Reload | flask_dynamic_secrets_app/config.py:20-28 | on success the loader is fresh over the parsed list and the fields come from its credentials; on failure the loader and fields are unchanged and the error is `Load`'s |
| Configuration.InitConfig | flask_dynamic_secrets_app/config.py:11-18 | defining the class yields the fields of the loaded credentials, or the loading error |
| BackupConfiguration.ImportConfig | backups/config.py:5-15 | the import fails iff loading fails; otherwise each of the five fields is present iff its credential was loaded |
| BackupConfiguration.SecretKeyFromFiles | backups/config.py:11 | the import succeeds whether or not SECRET_KEY is present; the field is `None` iff no directory holds a SECRET_KEY file, and otherwise the stripped content of that file in the last directory holding it |
| BackupConfiguration.AgreesWithConfig | backups/config.py:12-15 | the database fields of the earlier configuration equal those of the current `Config` |
| Watchdog.FlaskSecretsChangeHandler.constructor | flask_dynamic_secrets_app/flask_secrets_watchdog.py:14-16 | the handler keeps the directory list and the callback |
| Watchdog.FlaskSecretsChangeHandler.OnModified | flask_dynamic_secrets_app/flask_secrets_watchdog.py:18-21 | the callback is called exactly once for a file event and never for a directory event |
| Watchdog.FlaskSecretsChangeHandler.OnDeleted | flask_dynamic_secrets_app/flask_secrets_watchdog.py:23-26 | the callback is called exactly once for a file event and never for a directory event |
| Watchdog.OnSecretsChanged | flask_dynamic_secrets_app/flask_secrets_watchdog.py:28-34 | `SECRET_KEY` becomes the freshly loaded credential or `None`; no other `app.config` entry changes; on a loading error nothing changes |
| ManageDb.DbConfig | flask_dynamic_secrets_app/managedb.py:6-11 | the four settings under `host`, `user`, `password` and `database`, present iff all four keys are in `app.config`; otherwise the first missing key in reading order |
| ManageDb.Statements | flask_dynamic_secrets_app/managedb.py:23-24 | the pieces of the script between `;` whose stripped text is non-empty, unchanged and in order (a definition; `NonBlankCounts`, `NonBlankKeepsNoBlank` and `NonBlankInOrder` state what it keeps) |
| ManageDb.Trace | flask_dynamic_secrets_app/managedb.py:14-32 | connect, one execution per statement with the server's verdict given the statements sent before, commit, close cursor, close connection (a definition; `CommitOnceAfterStatements` states its shape) |
| ManageDb.InitializeDatabase | flask_dynamic_secrets_app/managedb.py:5-32 | raises on the first missing key before connecting; otherwise connect, execute every non-blank piece in order with the server's verdict, then commit and close cursor and connection |
| ManageDb.NonBlankCounts | flask_dynamic_secrets_app/managedb.py:23-24 | each non-blank piece is executed as often as it occurs in the script; blank pieces never are |
| ManageDb.NonBlankKeepsNoBlank | flask_dynamic_secrets_app/managedb.py:24 | no executed statement is blank |
| ManageDb.NonBlankInOrder | flask_dynamic_secrets_app/managedb.py:23-26 | the executed statements are a subsequence of the pieces, in script order |
| ManageDb.CommitOnceAfterStatements | flask_dynamic_secrets_app/managedb.py:14-32 | the trace starts with the connect, has one event per statement plus four, holds a single commit after every execution, and ends with closing the cursor and then the connection |
| ManageDb.AttemptsIgnoreVerdicts | flask_dynamic_secrets_app/managedb.py:25-28 | a rejected statement does not stop the loop: the statements attempted do not depend on the verdicts |
| ManageDb.RepeatedCreateRejected | flask_dynamic_secrets_app/managedb.py:25-28 | one fixed example: for the statements `CREATE TABLE q`, `CREATE TABLE q`, `INSERT`, against a server that rejects any statement already sent, the second `CREATE TABLE q` is rejected and the `INSERT` after it is still sent |

## Left out

- `FlaskSecretsChangeHandler` overrides only `on_modified` and `on_deleted`; the library's inherited `on_created`, `on_moved` and `on_any_event` do nothing, and are not modelled.
- `run_watchdog`, the `Observer`, scheduling, the sleep loop and shutdown are I/O and concurrency. The handler's methods are modelled; the thread that calls them is not.
- Logging and the `print` of a failed statement are output only and are not modelled.
- `app.py` is context. Its routes, the quote API and `app.config.from_object(Config)` are not part of this model. `app.config` is a map of strings or `None`.
- Reading `db/quotes-init.sql` is I/O: `InitializeDatabase` takes the script text as a parameter.
- `mysql.connector.connect`, `cnx.cursor()`, `cnx.commit()`, `cursor.close` and `cnx.close` are assumed to succeed. Only `cursor.execute` consults the server oracle, and only `mysql.connector.Error` is caught, as in the source.
- Loader.LoadFailsAtFirst: the error names the failing directory and the reason (unlistable, or an entry that does not open as a file), not which entry failed. That depends on `os.listdir` order, which the model leaves unspecified by letting `StoreDirectory` pick any pending name.
- Loader.SecretsLoader.LoadSecrets: on failure the model does not say which credentials were stored before the error. In the source the exception escapes the constructor, so that partial loader is never seen.
- Configuration.Config.Reload: Python class attributes become the fields of one `Config` object. Fields assigned one after another cannot be observed half-updated in a sequential model.
- Watchdog.FlaskSecretsChangeHandler.OnModified, Watchdog.FlaskSecretsChangeHandler.OnDeleted: the handler does not call the callback itself. It returns the calls to make, because a Dafny method cannot run an arbitrary Python callable.
- Concurrent events, file-system races between listing and reading, and text decoding errors are not modelled. They appear only as an entry that cannot be opened.
