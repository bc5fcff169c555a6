/** The watcher side (flask_dynamic_secrets_app/flask_secrets_watchdog.py):
    the event handler that forwards file events to a callback, and the
    callback that refreshes the application's SECRET_KEY. */
module Watchdog {
  import opened Wrappers
  import opened Loader
  import opened SecretsDirs
  import opened FlaskApp

  /** The parts of a watchdog file-system event the handler looks at. */
  datatype FileSystemEvent = FileSystemEvent(srcPath: string, isDirectory: bool)

  /** The handler keeps the directories and the callback it was given. A
      call of the callback is reported as an element of the sequence a
      handler method returns; the caller performs it. */
  class FlaskSecretsChangeHandler<Callback> {
    const secretsDirs: seq<string>
    const callback: Callback

    constructor (secretsDirs: seq<string>, callback: Callback)
      ensures this.secretsDirs == secretsDirs && this.callback == callback
    {
      this.secretsDirs := secretsDirs;
      this.callback := callback;
    }

    /** `on_modified`: the callback once for a file, never for a directory. */
    method OnModified(event: FileSystemEvent) returns (calls: seq<Callback>)
      ensures |calls| == if event.isDirectory then 0 else 1
      ensures forall i :: 0 <= i < |calls| ==> calls[i] == callback
    {
      calls := [];
      if !event.isDirectory {
        calls := calls + [callback];
      }
    }

    /** `on_deleted`: the callback once for a file, never for a directory. */
    method OnDeleted(event: FileSystemEvent) returns (calls: seq<Callback>)
      ensures |calls| == if event.isDirectory then 0 else 1
      ensures forall i :: 0 <= i < |calls| ==> calls[i] == callback
    {
      calls := [];
      if !event.isDirectory {
        calls := calls + [callback];
      }
    }
  }

  /** `on_secrets_changed`: build a loader over the parsed SECRETS_DIRS and
      set `app.config['SECRET_KEY']` to its SECRET_KEY credential, or `None`.
      No other entry changes; when building the loader raises, nothing does. */
  method OnSecretsChanged(app: FlaskConfig, env: Option<string>, fs: FileSystem) returns (failure: Option<LoadError>)
    modifies app
    ensures failure.Some? <==> Load(fs, ParseSecretsDirs(env)).Failure?
    ensures failure.Some? ==>
      && failure.value == Load(fs, ParseSecretsDirs(env)).error
      && app.entries == old(app.entries)
    ensures failure.None? ==>
      && SecretKey in app.entries
      && app.entries[SecretKey] == Get(Load(fs, ParseSecretsDirs(env)).value, SecretKey)
    ensures forall k :: k != SecretKey ==>
      && (k in app.entries <==> k in old(app.entries))
      && (k in app.entries ==> app.entries[k] == old(app.entries)[k])
  {
    var loaded := NewSecretsLoader(ParseSecretsDirs(env), fs);
    if loaded.Failure? {
      return Some(loaded.error);
    }
    var secretKey := loaded.value.GetCredential(SecretKey);
    app.entries := app.entries[SecretKey := secretKey];
    return None;
  }
}
