/**
 * The HTTP routes: `/health` and `/ask`. The question is turned into SQL,
 * the bearer token is read from the Authorization header, and the SQL is
 * executed only when it is not blank; failures of either step become a
 * response rather than an error. The generator and the executor are
 * parameters.
 */
module Router {
  import opened Wrappers
  import opened PyStr
  import opened SqlNormalize
  import opened SqlSafety
  import opened SqlExecute
  import opened SqlPatterns

  /** The body of the `/health` reply. */
  function Health(): (r: map<string, bool>)
    ensures r.Keys == {"ok"} && r["ok"]
  {
    map["ok" := true]
  }

  const BearerPrefix := "Bearer "
  const NoSqlNote := "No sql generated"
  const ExecutionErrorPrefix := "Execution error: "

  /** The reply of `/ask`. */
  datatype AskOut = AskOut(question: string, sql: string, rows: seq<Row>, note: string)

  /** The token of an Authorization header: what follows an exact, case-sensitive "Bearer ", trimmed; "" for any other header. */
  function BearerToken(authorization: string): (jwt: string)
    ensures IsStripped(jwt)
    ensures !StartsWith(authorization, BearerPrefix) ==> jwt == ""
    ensures jwt != "" ==> StartsWith(authorization, BearerPrefix) && Contains(authorization[|BearerPrefix|..], jwt)
    ensures StartsWith(authorization, BearerPrefix) ==> jwt == Strip(authorization[|BearerPrefix|..])
  {
    if authorization != "" && StartsWith(authorization, BearerPrefix) then
      var rest := authorization[|BearerPrefix|..];
      StripIsSlice(rest);
      var a := |rest| - |LStripChars(rest, Whitespace)|;
      assert OccursAt(rest, Strip(rest), a);
      Strip(rest)
    else ""
  }

  /** A header made of "Bearer " and a token gives the token trimmed. */
  lemma BearerTokenOf(token: string)
    ensures BearerToken(BearerPrefix + token) == Strip(token)
  {
    var h := BearerPrefix + token;
    assert h[..|BearerPrefix|] == BearerPrefix;
    assert h[|BearerPrefix|..] == token;
  }

  /** The scheme is matched case-sensitively: "bearer " yields no token. */
  lemma LowerCaseSchemeHasNoToken(token: string)
    ensures BearerToken("bearer " + token) == ""
  {
    var h := "bearer " + token;
    assert h[0] != BearerPrefix[0];
    assert h[..|BearerPrefix|][0] == h[0];
  }

  /** Text whose `strip()` is empty, which Python reads as false. */
  predicate IsBlank(s: string)
    ensures IsBlank(s) <==> forall i | 0 <= i < |s| :: IsSpace(s[i])
  {
    StripEmptyExactlyWhenAllSpace(s);
    Strip(s) == []
  }

  /**
   * `/ask`: a failed generation leaves the SQL empty; the note defaults to
   * "No sql generated"; non-blank SQL goes to the executor with the token,
   * whose failure becomes an "Execution error: " note. The reply carries the
   * question and the generated SQL as they were.
   */
  function Ask(question: string, authorization: string,
               generate: string -> Result<string>, execute: (string, string) -> Result<Answer>): (r: AskOut)
    ensures r.question == question
    ensures r.sql == (if generate(question).Ok? then generate(question).value else "")
    ensures IsBlank(r.sql) ==> r.rows == [] && r.note == NoSqlNote
    ensures !IsBlank(r.sql) && execute(r.sql, BearerToken(authorization)).Raised? ==>
      r.rows == [] && r.note == ExecutionErrorPrefix + execute(r.sql, BearerToken(authorization)).message
    ensures !IsBlank(r.sql) && execute(r.sql, BearerToken(authorization)).Ok? ==>
      r.rows == execute(r.sql, BearerToken(authorization)).value.rows && r.note == execute(r.sql, BearerToken(authorization)).value.note
  {
    var sql := match generate(question) case Ok(s) => s case Raised(_) => "";
    var jwt := BearerToken(authorization);
    if !IsBlank(sql) then
      match execute(sql, jwt)
      case Ok(answer) => AskOut(question, sql, answer.rows, answer.note)
      case Raised(e) => AskOut(question, sql, [], ExecutionErrorPrefix + e)
    else AskOut(question, sql, [], NoSqlNote)
  }

  /** A generator that fails gives the empty SQL and the default note; the executor plays no part. */
  lemma FailedGenerationAnswered(question: string, authorization: string,
                                 generate: string -> Result<string>, execute: (string, string) -> Result<Answer>)
    requires generate(question).Raised?
    ensures Ask(question, authorization, generate, execute) == AskOut(question, "", [], NoSqlNote)
  {
    assert Strip("") == [];
  }

  /** Blank SQL never reaches the executor: any two executors give the same reply. */
  lemma BlankSqlSkipsExecutor(question: string, authorization: string, generate: string -> Result<string>,
                              execute1: (string, string) -> Result<Answer>, execute2: (string, string) -> Result<Answer>)
    requires generate(question).Raised? || IsBlank(generate(question).value)
    ensures Ask(question, authorization, generate, execute1) == Ask(question, authorization, generate, execute2)
  {
    assert Strip("") == [];
  }

  /** The executor sees exactly the generated SQL and the header's token. */
  lemma ExecutorSeesGeneratedSql(question: string, authorization: string, generate: string -> Result<string>,
                                 execute1: (string, string) -> Result<Answer>, execute2: (string, string) -> Result<Answer>)
    requires generate(question).Ok? && !IsBlank(generate(question).value)
    requires execute1(generate(question).value, BearerToken(authorization)) == execute2(generate(question).value, BearerToken(authorization))
    ensures Ask(question, authorization, generate, execute1) == Ask(question, authorization, generate, execute2)
  {
  }

  /**
   * With either executor, as written or corrected: non-blank SQL and a header
   * that is not a bearer header give the missing-token note, whatever the
   * database would answer.
   */
  lemma NoBearerMeansMissingJwt(question: string, authorization: string, generate: string -> Result<string>,
                                rpc: string -> RpcReply)
    requires !StartsWith(authorization, BearerPrefix)
    requires generate(question).Ok? && !IsBlank(generate(question).value)
    ensures Ask(question, authorization, generate, (sql, jwt) => ExecuteAsWritten(sql, jwt, rpc)).note == MissingJwtNote
    ensures Ask(question, authorization, generate, (sql, jwt) => ExecuteAsWritten(sql, jwt, rpc)).rows == []
    ensures Ask(question, authorization, generate, (sql, jwt) => Execute(sql, jwt, rpc)).note == MissingJwtNote
    ensures Ask(question, authorization, generate, (sql, jwt) => Execute(sql, jwt, rpc)).rows == []
  {
    AsWrittenMissingJwtAnswered(generate(question).value, rpc);
    MissingJwtAnswered(generate(question).value, rpc);
  }

  /**
   * End to end, with the executor as written and a token: when the
   * normalised SQL passes the test, the database receives the normalised
   * statement with its limit, its reply decides rows and note, and the
   * reply shows the SQL as generated.
   */
  lemma AsWrittenQueryEndToEnd(question: string, token: string, generate: string -> Result<string>,
                               rpc: string -> RpcReply)
    requires generate(question).Ok? && !IsBlank(generate(question).value)
    requires Strip(token) != "" && IsSafe(NormalizeSql(generate(question).value))
    ensures HasLimit(Limited(NormalizeSql(generate(question).value)))
    ensures var r := Ask(question, BearerPrefix + token, generate, (sql, jwt) => ExecuteAsWritten(sql, jwt, rpc));
      var reply := Respond(rpc(Limited(NormalizeSql(generate(question).value))));
      r.sql == generate(question).value &&
      (reply.Ok? ==> r.rows == reply.value.rows && r.note == reply.value.note) &&
      (reply.Raised? ==> r.rows == [] && r.note == ExecutionErrorPrefix + reply.message)
  {
    var g := generate(question).value;
    BearerTokenOf(token);
    AsWrittenSubmitted(g, Strip(token), rpc);
    AskRelaysAnswer(question, BearerPrefix + token, generate, (sql, jwt) => ExecuteAsWritten(sql, jwt, rpc),
                    Respond(rpc(Limited(NormalizeSql(g)))));
  }

  /** Non-blank SQL gets the executor's answer relayed: its rows and note, or the execution-error note. */
  lemma AskRelaysAnswer(question: string, authorization: string, generate: string -> Result<string>,
                        execute: (string, string) -> Result<Answer>, answer: Result<Answer>)
    requires generate(question).Ok? && !IsBlank(generate(question).value)
    requires execute(generate(question).value, BearerToken(authorization)) == answer
    ensures var r := Ask(question, authorization, generate, execute);
      r.sql == generate(question).value &&
      (answer.Ok? ==> r.rows == answer.value.rows && r.note == answer.value.note) &&
      (answer.Raised? ==> r.rows == [] && r.note == ExecutionErrorPrefix + answer.message)
  {
  }

  /**
   * End to end, with the corrected executor and a token: the database
   * receives the normalised statement with its limit, its reply (or the
   * failure to build the client) decides rows and note, and the reply still
   * shows the SQL as generated.
   */
  lemma SafeQueryEndToEnd(question: string, token: string, generate: string -> Result<string>,
                          rpc: string -> RpcReply)
    requires generate(question).Ok? && !IsBlank(generate(question).value)
    requires Strip(token) != "" && IsSafe(generate(question).value)
    ensures var r := Ask(question, BearerPrefix + token, generate, (sql, jwt) => Execute(sql, jwt, rpc));
      var reply := Respond(rpc(Limited(NormalizeSql(generate(question).value))));
      r.sql == generate(question).value &&
      (reply.Ok? ==> r.rows == reply.value.rows && r.note == reply.value.note) &&
      (reply.Raised? ==> r.rows == [] && r.note == ExecutionErrorPrefix + reply.message)
  {
    BearerTokenOf(token);
    SafeStatementSubmitted(generate(question).value, Strip(token), rpc);
  }
}
