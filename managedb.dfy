/** Database initialisation (flask_dynamic_secrets_app/managedb.py): the
    connection settings taken from `app.config`, then the initialisation
    script split on `;` and run statement by statement. The MySQL server is
    an oracle `accepts` that says whether `cursor.execute` succeeds on a
    statement, given the statements sent before it on the connection; what
    the code does to the connection is recorded as a trace. */
module ManageDb {
  import opened Wrappers
  import opened Text
  import opened FlaskApp

  /** One step the code takes against the database connection. A statement
      the server rejects is reported, and the loop goes on. */
  datatype DbEvent =
    | Connect(settings: map<string, Option<string>>)
    | Execute(statement: string, accepted: bool)
    | Commit
    | CloseCursor
    | CloseConnection

  /** The server's verdict on a statement, given every statement sent before
      it on the same connection (so a repeated `CREATE TABLE` may be
      accepted once and rejected the second time). */
  type Server = (seq<string>, string) -> bool

  /** The `app.config` keys `db_config` reads, in reading order. */
  const ConfigKeys: seq<string> := ["DATABASE_HOST", "DATABASE_USER", "DATABASE_PASSWORD", "DATABASE_NAME"]

  /** `db_config`: the four connection settings read from `app.config`, or
      the first absent key, in reading order, on which the lookup raises. */
  function DbConfig(config: map<string, Option<string>>): (r: Result<map<string, Option<string>>, string>)
    ensures r.Success? <==>
      && "DATABASE_HOST" in config && "DATABASE_USER" in config
      && "DATABASE_PASSWORD" in config && "DATABASE_NAME" in config
    ensures r.Success? ==>
      && r.value.Keys == {"host", "user", "password", "database"}
      && r.value["host"] == config["DATABASE_HOST"]
      && r.value["user"] == config["DATABASE_USER"]
      && r.value["password"] == config["DATABASE_PASSWORD"]
      && r.value["database"] == config["DATABASE_NAME"]
    ensures r.Failure? ==> r.error in ConfigKeys && r.error !in config
    ensures forall i, j :: 0 <= j < i < |ConfigKeys| && r == Failure(ConfigKeys[i]) ==> ConfigKeys[j] in config
  {
    if "DATABASE_HOST" !in config then Failure("DATABASE_HOST")
    else if "DATABASE_USER" !in config then Failure("DATABASE_USER")
    else if "DATABASE_PASSWORD" !in config then Failure("DATABASE_PASSWORD")
    else if "DATABASE_NAME" !in config then Failure("DATABASE_NAME")
    else Success(map[
      "host" := config["DATABASE_HOST"],
      "user" := config["DATABASE_USER"],
      "password" := config["DATABASE_PASSWORD"],
      "database" := config["DATABASE_NAME"]])
  }

  /** A piece that `strip()` leaves empty: the `if statement.strip()` test fails. */
  predicate Blank(piece: string)
  {
    Strip(piece) == []
  }

  /** The pieces the loop executes: the non-blank ones, in order, unchanged. */
  function NonBlank(pieces: seq<string>): seq<string>
    decreases |pieces|
  {
    if pieces == [] then []
    else
      var last := pieces[|pieces| - 1];
      NonBlank(pieces[..|pieces| - 1]) + (if Blank(last) then [] else [last])
  }

  /** The statements of an initialisation script. */
  function Statements(script: string): seq<string>
  {
    NonBlank(Split(script, ';'))
  }

  /** One `Execute` per statement, in order, each with the server's verdict
      in the light of the statements sent before it. */
  function Attempts(statements: seq<string>, accepts: Server): seq<DbEvent>
  {
    seq(|statements|, i requires 0 <= i < |statements| => Execute(statements[i], accepts(statements[..i], statements[i])))
  }

  /** Everything `initialize_database` does against the database once the
      settings are read: connect, run the statements, commit, close. */
  function Trace(settings: map<string, Option<string>>, script: string, accepts: Server): seq<DbEvent>
  {
    [Connect(settings)] + Attempts(Statements(script), accepts) + [Commit, CloseCursor, CloseConnection]
  }

  /** `initialize_database(app)` with the script's text given: the trace of
      what it does against the database, or the configuration key whose
      absence makes it raise before connecting. */
  method InitializeDatabase(app: FlaskConfig, script: string, accepts: Server) returns (r: Result<seq<DbEvent>, string>)
    ensures DbConfig(app.entries).Failure? ==> r == Failure(DbConfig(app.entries).error)
    ensures DbConfig(app.entries).Success? ==> r == Success(Trace(DbConfig(app.entries).value, script, accepts))
  {
    var config := DbConfig(app.entries);
    if config.Failure? {
      return Failure(config.error);
    }
    var trace := [Connect(config.value)];
    var pieces := Split(script, ';');
    var sent: seq<string> := [];
    for k := 0 to |pieces|
      invariant sent == NonBlank(pieces[..k])
      invariant trace == [Connect(config.value)] + Attempts(sent, accepts)
    {
      var statement := pieces[k];
      NonBlankStep(pieces, k);
      if !Blank(statement) {
        AttemptsStep(sent, statement, accepts);
        trace := trace + [Execute(statement, accepts(sent, statement))];
        sent := sent + [statement];
      }
    }
    assert pieces[..|pieces|] == pieces;
    trace := trace + [Commit, CloseCursor, CloseConnection];
    return Success(trace);
  }

  lemma {:induction false} NonBlankStep(pieces: seq<string>, k: nat)
    requires k < |pieces|
    ensures NonBlank(pieces[..k + 1]) == NonBlank(pieces[..k]) + if Blank(pieces[k]) then [] else [pieces[k]]
  {
    assert pieces[..k + 1][..k] == pieces[..k];
  }

  lemma {:induction false} AttemptsStep(statements: seq<string>, statement: string, accepts: Server)
    ensures Attempts(statements + [statement], accepts) == Attempts(statements, accepts) + [Execute(statement, accepts(statements, statement))]
  {
    assert (statements + [statement])[..|statements|] == statements;
    assert forall i :: 0 <= i < |statements| ==> (statements + [statement])[..i] == statements[..i];
  }

  /** Exactly the non-blank pieces are executed, each as often as it occurs
      in the script; blank pieces, such as what follows the last `;`, never are. */
  lemma {:induction false} NonBlankCounts(pieces: seq<string>)
    ensures forall x :: multiset(NonBlank(pieces))[x] == if Blank(x) then 0 else multiset(pieces)[x]
    decreases |pieces|
  {
    if pieces != [] {
      var init, last := pieces[..|pieces| - 1], pieces[|pieces| - 1];
      NonBlankCounts(init);
      assert pieces == init + [last];
    }
  }

  /** A subsequence: `a` is `b` with some elements left out, order kept. */
  ghost predicate SubsequenceOf(a: seq<string>, b: seq<string>)
    decreases |b|
  {
    if a == [] then true
    else if b == [] then false
    else if a[|a| - 1] == b[|b| - 1] then SubsequenceOf(a[..|a| - 1], b[..|b| - 1])
    else SubsequenceOf(a, b[..|b| - 1])
  }

  /** Every executed piece is non-blank. */
  lemma {:induction false} NonBlankKeepsNoBlank(pieces: seq<string>)
    ensures forall i :: 0 <= i < |NonBlank(pieces)| ==> !Blank(NonBlank(pieces)[i])
    decreases |pieces|
  {
    if pieces != [] {
      NonBlankKeepsNoBlank(pieces[..|pieces| - 1]);
    }
  }

  /** The executed pieces keep the order they have in the script. */
  lemma {:induction false} NonBlankInOrder(pieces: seq<string>)
    ensures SubsequenceOf(NonBlank(pieces), pieces)
    decreases |pieces|
  {
    if pieces != [] {
      var init, last := pieces[..|pieces| - 1], pieces[|pieces| - 1];
      NonBlankInOrder(init);
      var kept := NonBlank(init);
      if !Blank(last) {
        assert NonBlank(pieces) == kept + [last];
        assert (kept + [last])[..|kept|] == kept;
      } else {
        assert NonBlank(pieces) == kept;
        if kept != [] {
          NonBlankKeepsNoBlank(init);
          assert !Blank(kept[|kept| - 1]);
        }
      }
    }
  }

  /** Commit happens once, after every statement has been attempted, and
      is followed only by closing the cursor and the connection. */
  lemma {:induction false} CommitOnceAfterStatements(settings: map<string, Option<string>>, script: string, accepts: Server)
    ensures var t := Trace(settings, script, accepts);
      && |t| == |Statements(script)| + 4
      && t[0] == Connect(settings)
      && t[|t| - 3] == Commit
      && t[|t| - 2] == CloseCursor
      && t[|t| - 1] == CloseConnection
      && (forall i :: 0 <= i < |t| && t[i] == Commit ==> i == |t| - 3)
      && (forall i :: 0 <= i < |t| && t[i].Execute? ==> 0 < i < |t| - 3)
  {
    var t := Trace(settings, script, accepts);
    var attempts := Attempts(Statements(script), accepts);
    assert forall i :: 0 < i < |t| - 3 ==> t[i] == attempts[i - 1];
  }

  /** A rejected statement does not stop the loop: which statements are
      attempted does not depend on the server's verdicts. */
  lemma {:induction false} AttemptsIgnoreVerdicts(script: string, accepts: Server, accepts': Server)
    ensures var t, t' := Attempts(Statements(script), accepts), Attempts(Statements(script), accepts');
      && |t| == |t'|
      && forall i :: 0 <= i < |t| ==> t[i].statement == t'[i].statement
  {
  }

  /** Statements that create the same table twice, against a server that
      rejects a `CREATE TABLE` it has already run: the second one is
      rejected, and the insert after it is still sent. */
  lemma {:induction false} RepeatedCreateRejected()
    ensures var server: Server := (sent, statement) => statement !in sent;
      Attempts(["CREATE TABLE q", "CREATE TABLE q", "INSERT"], server)
        == [Execute("CREATE TABLE q", true), Execute("CREATE TABLE q", false), Execute("INSERT", true)]
  {
    var statements := ["CREATE TABLE q", "CREATE TABLE q", "INSERT"];
    assert statements[..1] == ["CREATE TABLE q"] && statements[..2] == ["CREATE TABLE q", "CREATE TABLE q"];
    assert "INSERT" != "CREATE TABLE q";
  }
}
