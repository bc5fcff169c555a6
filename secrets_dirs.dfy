/** The SECRETS_DIRS rule, written out identically in
    flask_dynamic_secrets_app/config.py, backups/config.py and
    flask_dynamic_secrets_app/flask_secrets_watchdog.py: split the variable
    (or its default) on commas and strip every piece. */
module SecretsDirs {
  import opened Wrappers
  import opened Text
  import opened Loader

  /** The directory list used when SECRETS_DIRS is unset. */
  const DefaultSecretsDir: string := "./default/path/to/secrets"

  /** `os.getenv('SECRETS_DIRS', default)`: the value, even an empty one, or
      the default when the variable is unset. */
  function SecretsDirsText(env: Option<string>): string
  {
    if env.Some? then env.value else DefaultSecretsDir
  }

  /** `[dir.strip() for dir in <text>.split(',')]`: the pieces of the text
      between commas, each stripped, in order; empty pieces are kept. */
  function ParseSecretsDirs(env: Option<string>): seq<string>
  {
    StripAll(Split(SecretsDirsText(env), ','))
  }

  /** Every piece stripped, in order. */
  function StripAll(pieces: seq<string>): seq<string>
    decreases |pieces|
  {
    if pieces == [] then [] else [Strip(pieces[0])] + StripAll(pieces[1..])
  }

  lemma {:induction false} StripAllAt(pieces: seq<string>)
    ensures |StripAll(pieces)| == |pieces|
    ensures forall i :: 0 <= i < |pieces| ==> StripAll(pieces)[i] == Strip(pieces[i])
    decreases |pieces|
  {
    if pieces != [] {
      StripAllAt(pieces[1..]);
    }
  }

  /** One directory per comma, plus one: empty pieces are not dropped. */
  lemma {:induction false} DirectoryCount(env: Option<string>)
    ensures |ParseSecretsDirs(env)| == multiset(SecretsDirsText(env))[','] + 1
  {
    var pieces := Split(SecretsDirsText(env), ',');
    SplitCount(SecretsDirsText(env), ',');
    StripAllAt(pieces);
  }

  /** No directory name begins or ends with whitespace. */
  lemma {:induction false} DirectoriesTrimmed(env: Option<string>)
    ensures forall i :: 0 <= i < |ParseSecretsDirs(env)| ==> Trimmed(ParseSecretsDirs(env)[i])
  {
    StripAllAt(Split(SecretsDirsText(env), ','));
  }

  /** With SECRETS_DIRS unset the list is the default directory alone. */
  lemma {:induction false} DefaultSecretsDirs()
    ensures ParseSecretsDirs(None) == [DefaultSecretsDir]
  {
    var d := DefaultSecretsDir;
    assert d[0] == '.' && d[|d| - 1] == 's';
    assert forall i :: 0 <= i < |d| ==> d[i] != ',';
    assert Join([d], ',') == d;
    ParseJoinedDirs([d]);
  }

  /** Directory names without commas or surrounding whitespace survive being
      joined with commas into SECRETS_DIRS and parsed back. */
  lemma {:induction false} ParseJoinedDirs(dirs: seq<string>)
    requires |dirs| >= 1
    requires forall i :: 0 <= i < |dirs| ==> ',' !in dirs[i] && Trimmed(dirs[i])
    ensures ParseSecretsDirs(Some(Join(dirs, ','))) == dirs
  {
    var text := Join(dirs, ',');
    SplitJoin(dirs, ',');
    StripAllAt(Split(text, ','));
    var parsed := ParseSecretsDirs(Some(text));
    forall i | 0 <= i < |dirs|
      ensures parsed[i] == dirs[i]
    {
      StripTrimmed(dirs[i]);
    }
  }

  /** A trailing comma in SECRETS_DIRS yields an empty last directory name,
      which cannot be listed, so loading fails. */
  lemma {:induction false} TrailingCommaFailsLoad(text: string, fs: FileSystem)
    ensures var dirs := ParseSecretsDirs(Some(text + [',']));
      && dirs[|dirs| - 1] == ""
      && Load(fs, dirs).Failure?
  {
    var pieces := Split(text + [','], ',');
    SplitEndsEmpty(text + [','], ',');
    StripAllAt(pieces);
    var dirs := ParseSecretsDirs(Some(text + [',']));
    assert dirs[|dirs| - 1] == Strip(pieces[|pieces| - 1]) == Strip([]);
    assert ReadDirectory(fs, dirs[|dirs| - 1]).Failure?;
    LoadSucceeds(fs, dirs);
  }
}
