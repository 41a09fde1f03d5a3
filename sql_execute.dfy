/**
 * `execute_sql_query`: a ladder of early returns around a single remote
 * call. A missing token and an unsafe statement are answered locally;
 * anything else is normalised, given a row limit, stripped of its final
 * semicolon and handed to the database RPC, whose reply picks the note.
 */
module SqlExecute {
  import opened Wrappers
  import opened PyStr
  import opened SqlPatterns
  import opened SqlNormalize
  import opened SqlSafety
  import opened SqlLimit

  /** A JSON scalar in a result row; floating-point numbers are not modelled. */
  datatype Value = Null | Boolean(b: bool) | Number(n: int) | Text(s: string)

  /** A result row: column name to value. */
  type Row = map<string, Value>

  /**
   * What building the client and calling the RPC produce: building the client
   * fails outside any handler, the call itself can fail, or it returns its
   * `data` (possibly absent).
   */
  datatype RpcReply = ClientFailed(cause: string) | RpcFailed(error: string) | Data(rows: Option<seq<Row>>)

  /** The pair `(rows, note)` that `execute_sql_query` returns. */
  datatype Answer = Answer(rows: seq<Row>, note: string)

  const MissingJwtNote := "Missing user JWT. Please login first."
  const RejectedNote := "SQL rejected by safety check."
  const RpcErrorPrefix := "Supabase RPC error: "
  const NoRowsNote := "No matching records were found in the current result."
  const SuccessNote := "SQL executed successfully."

  /** What the early-return ladder decides before any remote call. */
  datatype Decision = Rejected(note: string) | Submit(statement: string)

  /**
   * What the gate is meant to guarantee of a submitted statement: it passes
   * the safety test in its own right, carries a `LIMIT <digits>`, and does
   * not end in a semicolon.
   */
  predicate SafeSubmission(st: string)
  {
    SafeStatement(st) && HasLimit(st) && st != [] && st[|st| - 1] != ';'
  }

  /**
   * The statement sent to the RPC for a normalised statement `q`: the row
   * limit is ensured, then the text is trimmed and its trailing semicolons
   * are removed, which is the core of the limited text.
   */
  function Limited(q: string): (st: string)
    ensures st == [] || st[|st| - 1] != ';'
  {
    LimitCore(EnsureLimitClause(q))
  }

  /** With a non-blank core, the submitted text is the limited text without its semicolon: the core, or the core with the default limit. */
  lemma LimitedShape(q: string)
    requires LimitCore(q) != []
    ensures Limited(q) == EnsureLimitClause(q)[..|EnsureLimitClause(q)| - 1]
    ensures Limited(q) == LimitCore(q) || Limited(q) == LimitCore(q) + DefaultLimit
  {
    var c := LimitCore(q);
    assert c[|c| - 1] != ';';
    CoreOfLimited(q);
    EnsureLimitShape(q);
    var r := EnsureLimitClause(q);
    assert (c + ";")[..|c|] == c;
    assert (c + DefaultLimit + ";")[..|c| + |DefaultLimit|] == c + DefaultLimit;
  }

  /** The submitted text is the limited text before its semicolon, which carries the limit. */
  lemma LimitedCarriesLimit(q: string, st: string)
    requires LimitCore(q) != [] && st == Limited(q)
    ensures HasLimit(st)
  {
    EnsureLimitHasLimit(q);
    CoreOfLimited(q);
  }

  /** With a non-blank core, the submitted text carries a limit and does not end in a semicolon. */
  lemma LimitedHasLimit(q: string)
    requires LimitCore(q) != []
    ensures HasLimit(Limited(q))
    ensures Limited(q) != [] && Limited(q)[|Limited(q)| - 1] != ';'
  {
    var st := Limited(q);
    LimitedCarriesLimit(q, st);
  }

  /** The appended clause holds no forbidden keyword and starts with a character none of them has. */
  lemma DefaultLimitKeywordFree(k: nat)
    requires k < |Forbidden|
    ensures !Contains(DefaultLimit, Forbidden[k]) && DefaultLimit[0] !in Forbidden[k]
  {
    var c := if k == 0 then 'N'
      else if k == 1 || k == 6 then 'U'
      else if k == 2 || k == 5 then 'D'
      else if k == 4 then 'A'
      else if k == 7 then 'C'
      else 'E';
    assert c in Forbidden[k];
    MissingCharNotContained(DefaultLimit, Forbidden[k], c);
  }

  lemma UpperDefaultLimit()
    ensures Upper(DefaultLimit) == DefaultLimit
  {
    assert forall i | 0 <= i < |DefaultLimit| :: !('a' <= DefaultLimit[i] <= 'z');
  }

  /** What passing the test says about a trimmed statement, in the terms the other lemmas use. */
  lemma SafeStatementFacts(q: string)
    requires IsStripped(q) && SafeStatement(q)
    ensures SelectLettersAt(q, 0) && StartsWith(Upper(q), "SELECT")
    ensures forall k | 0 <= k < |Forbidden| :: !Contains(Upper(q), Forbidden[k])
  {
    SafeStatementStartsWithSelect(q);
    UpperKeepsStripped(q);
  }

  /** The core of a statement that starts with the letters of SELECT is a prefix of it that keeps those letters. */
  lemma SelectCoreIsPrefix(q: string)
    requires IsStripped(q) && SelectLettersAt(q, 0)
    ensures 6 <= |LimitCore(q)| <= |q| && LimitCore(q) == q[..|LimitCore(q)|]
  {
    assert q[5] != ';' by {
      assert UpperChar(q[5]) == 'T';
    }
    assert q[5] !in Semicolons;
    RStripKeeps(q, Semicolons, 5);
    StripUnchanged(q);
  }

  /** A prefix of a text whose upper-cased form lacks a keyword lacks it too. */
  lemma PrefixKeywordFree(q: string, n: nat, w: string)
    requires n <= |q| && !Contains(Upper(q), w)
    ensures !Contains(Upper(q[..n]), w)
  {
    UpperSlice(q, 0, n);
    if Contains(Upper(q)[0..n], w) {
      ContainsInSlice(Upper(q), 0, n, w);
    }
  }

  /** The submitted text of a statement that starts with SELECT letters, upper-cased, lacks each keyword the statement lacks. */
  lemma LimitedKeywordFree(q: string, k: nat)
    requires IsStripped(q) && SelectLettersAt(q, 0) && k < |Forbidden|
    requires !Contains(Upper(q), Forbidden[k])
    ensures !Contains(Upper(Limited(q)), Forbidden[k])
  {
    SelectCoreIsPrefix(q);
    var c := LimitCore(q);
    PrefixKeywordFree(q, |c|, Forbidden[k]);
    LimitedShape(q);
    if Limited(q) != c {
      UpperAppend(c, DefaultLimit);
      UpperDefaultLimit();
      DefaultLimitKeywordFree(k);
      AppendCreatesNoStraddle(Upper(c), DefaultLimit, Forbidden[k]);
    }
  }

  /** Both shapes of the submitted text begin with the first six characters of the statement. */
  lemma ShapeKeepsFirstSix(q: string, c: string, st: string)
    requires 6 <= |c| <= |q| && c == q[..|c|]
    requires st == c || st == c + DefaultLimit
    ensures 6 <= |st| && st[..6] == q[..6]
  {
    assert st[..6] == c[..6];
  }

  /** A text that begins like a statement whose upper-cased form starts with SELECT, still does after upper-casing and trimming. */
  lemma SameFirstSixStartsWithSelect(st: string, q: string)
    requires 6 <= |st| && 6 <= |q| && st[..6] == q[..6] && StartsWith(Upper(q), "SELECT")
    ensures StartsWith(Strip(Upper(st)), "SELECT")
  {
    UpperSlice(st, 0, 6);
    UpperSlice(q, 0, 6);
    var u := Upper(st);
    assert u[..6] == "SELECT";
    assert u[0] == 'S' && u[5] == 'T';
    StripKeepsPrefix(u, 6);
  }

  /** The submitted text of such a statement starts with the same six letters. */
  lemma LimitedStartsWithSelect(q: string)
    requires IsStripped(q) && SelectLettersAt(q, 0) && StartsWith(Upper(q), "SELECT")
    ensures StartsWith(Strip(Upper(Limited(q))), "SELECT")
  {
    SelectCoreIsPrefix(q);
    LimitedShape(q);
    ShapeKeepsFirstSix(q, LimitCore(q), Limited(q));
    SameFirstSixStartsWithSelect(Limited(q), q);
  }

  /**
   * What the corrected gate guarantees of the statement it submits: it
   * passes the safety test in its own right, it carries a limit, and it does
   * not end in a semicolon.
   */
  lemma LimitedKeepsSafety(q: string)
    requires IsStripped(q) && SafeStatement(q)
    ensures SafeSubmission(Limited(q))
  {
    SafeStatementFacts(q);
    SelectCoreIsPrefix(q);
    LimitedHasLimit(q);
    LimitedStartsWithSelect(q);
    forall k | 0 <= k < |Forbidden|
      ensures !Contains(Strip(Upper(Limited(q))), Forbidden[k])
    {
      LimitedKeywordFree(q, k);
      NotContainedAfterStrip(Upper(Limited(q)), Forbidden[k]);
    }
  }

  /**
   * The decision as `execute_sql_query` is written (lines 72-75): the
   * safety test is applied to the already normalised text, which
   * `is_safe_sql_query` normalises a second time, while the statement
   * submitted is built from the text normalised once.
   */
  function GateAsWritten(sql: string, jwt: string): (d: Decision)
    ensures jwt == "" ==> d == Rejected(MissingJwtNote)
    ensures jwt != "" && !IsSafe(NormalizeSql(sql)) ==> d == Rejected(RejectedNote)
    ensures jwt != "" && IsSafe(NormalizeSql(sql)) ==> d == Submit(Limited(NormalizeSql(sql)))
    ensures d.Submit? ==> d.statement == Limited(NormalizeSql(sql))
    ensures jwt != "" && IsSafe(NormalizeSql(sql)) ==>
      HasLimit(Limited(NormalizeSql(sql))) && Limited(NormalizeSql(sql)) != [] && Limited(NormalizeSql(sql))[|Limited(NormalizeSql(sql))| - 1] != ';'
  {
    if jwt == "" then Rejected(MissingJwtNote)
    else if !IsSafe(NormalizeSql(sql)) then Rejected(RejectedNote)
    else
      SafeNormalFormSubmittable(NormalizeSql(sql));
      Submit(Limited(NormalizeSql(sql)))
  }

  /** A normal form that passes the test limits to a non-empty text with a limit and no final semicolon. */
  lemma SafeNormalFormSubmittable(q: string)
    requires IsStripped(q) && IsSafe(q)
    ensures HasLimit(Limited(q)) && Limited(q) != [] && Limited(q)[|Limited(q)| - 1] != ';'
  {
    SafeNormalFormHasCore(q);
    LimitedHasLimit(q);
  }

  /**
   * A text that passes the test once normalised is not blank and not only
   * semicolons: otherwise it would be its own normal form, which does not
   * start with SELECT.
   */
  lemma SafeNormalFormHasCore(q: string)
    requires IsStripped(q) && IsSafe(q)
    ensures LimitCore(q) != []
  {
    if LimitCore(q) == [] {
      StripUnchanged(q);
      assert TrailStart(q, Semicolons, |q|) == 0;
      forall k | 0 <= k < |q|
        ensures q[k] == ';'
      {
        TrailStartSkips(q, Semicolons, |q|, k);
      }
      NoFenceWithoutBacktick(q);
      UnfenceOfUnfenced(q);
      NormalizeWithoutSelect(q);
      SafeStatementStartsWithSelect(NormalizeSql(q));
    }
  }

  /** The decision with the safety test applied to the very text that is submitted. */
  function Gate(sql: string, jwt: string): (d: Decision)
    ensures jwt == "" ==> d == Rejected(MissingJwtNote)
    ensures jwt != "" && !IsSafe(sql) ==> d == Rejected(RejectedNote)
    ensures jwt != "" && IsSafe(sql) ==> d == Submit(Limited(NormalizeSql(sql)))
  {
    if jwt == "" then Rejected(MissingJwtNote)
    else
      var q := NormalizeSql(sql);
      if !SafeStatement(q) then Rejected(RejectedNote)
      else Submit(Limited(q))
  }

  /** The corrected gate submits only statements that pass the safety test themselves, with a limit and no final semicolon. */
  lemma GateSubmitsSafeStatement(sql: string, jwt: string)
    requires Gate(sql, jwt).Submit?
    ensures Gate(sql, jwt).statement == Limited(NormalizeSql(sql))
    ensures SafeSubmission(Gate(sql, jwt).statement)
  {
    var q := NormalizeSql(sql);
    assert jwt != "" && SafeStatement(q);
    LimitedKeepsSafety(q);
  }

  /** Whatever the corrected gate submits, the gate as written submits too, and the same statement. */
  lemma GateRefinesAsWritten(sql: string, jwt: string)
    requires Gate(sql, jwt).Submit?
    ensures GateAsWritten(sql, jwt) == Gate(sql, jwt)
  {
    SafeNormalFormStable(sql);
  }

  /** When normalisation finds a whole-word SELECT, the gate as written decides as the corrected one does. */
  lemma GatesAgreeWhenSelectFound(sql: string, jwt: string)
    requires FirstWholeWordSelect(Unfence(sql), 0).Some?
    ensures GateAsWritten(sql, jwt) == Gate(sql, jwt)
  {
    NormalizeIdempotentWhenSelectFound(sql);
  }

  /**
   * The reply folded into the answer: a client that cannot be built raises
   * (it is built outside the handler), a failed call becomes an error note,
   * absent or empty data the no-records note, and rows the success note.
   */
  function Respond(reply: RpcReply): (r: Result<Answer>)
    ensures r.Raised? <==> reply.ClientFailed?
    ensures r.Ok? ==> (r.value.rows != [] <==> r.value.note == SuccessNote)
    ensures r.Ok? && r.value.rows != [] ==> reply.Data? && reply.rows == Some(r.value.rows)
    ensures reply.RpcFailed? ==> r == Ok(Answer([], RpcErrorPrefix + reply.error))
    ensures reply.Data? && (reply.rows.None? || reply.rows.value == []) ==> r == Ok(Answer([], NoRowsNote))
    ensures reply.Data? && reply.rows.Some? && reply.rows.value != [] ==> r == Ok(Answer(reply.rows.value, SuccessNote))
  {
    match reply
    case ClientFailed(cause) => Raised(cause)
    case RpcFailed(error) =>
      assert (RpcErrorPrefix + error)[1] != SuccessNote[1];
      Ok(Answer([], RpcErrorPrefix + error))
    case Data(rows) =>
      if rows.None? || rows.value == [] then Ok(Answer([], NoRowsNote))
      else Ok(Answer(rows.value, SuccessNote))
  }

  /** `execute_sql_query` with the corrected gate; the RPC is a parameter. */
  function Execute(sql: string, jwt: string, rpc: string -> RpcReply): (r: Result<Answer>)
    ensures r.Raised? ==> jwt != "" && IsSafe(sql) && rpc(Limited(NormalizeSql(sql))).ClientFailed?
    ensures r.Ok? && r.value.rows != [] ==> SafeSubmission(Limited(NormalizeSql(sql)))
  {
    match Gate(sql, jwt)
    case Rejected(note) => Ok(Answer([], note))
    case Submit(statement) =>
      GateSubmitsSafeStatement(sql, jwt);
      Respond(rpc(statement))
  }

  /** `execute_sql_query` as written. */
  function ExecuteAsWritten(sql: string, jwt: string, rpc: string -> RpcReply): (r: Result<Answer>)
    ensures r.Raised? ==> jwt != "" && IsSafe(NormalizeSql(sql)) && rpc(Limited(NormalizeSql(sql))).ClientFailed?
    ensures r.Ok? && r.value.rows != [] ==> HasLimit(Limited(NormalizeSql(sql)))
  {
    match GateAsWritten(sql, jwt)
    case Rejected(note) => Ok(Answer([], note))
    case Submit(statement) => Respond(rpc(statement))
  }

  /**
   * `execute_sql_query` as a ladder of early returns that rebinds the
   * statement step by step; the safety test receives the rebound,
   * once-normalised statement, as the program passes it.
   */
  method ExecuteSqlQuery(sqlQuery: string, jwt: string, rpc: string -> RpcReply) returns (outcome: Result<Answer>)
    ensures outcome == ExecuteAsWritten(sqlQuery, jwt, rpc)
  {
    if jwt == "" {
      return Ok(Answer([], MissingJwtNote));
    }
    var statement := NormalizeSql(sqlQuery);
    var safe := IsSafeSqlQuery(statement);
    if !safe {
      return Ok(Answer([], RejectedNote));
    }
    statement := EnsureLimitClause(statement);
    statement := RStripChars(Strip(statement), Semicolons);
    var reply := rpc(statement);
    outcome := Respond(reply);
  }

  /** An empty token is answered before the safety test and before any call. */
  lemma MissingJwtAnswered(sql: string, rpc: string -> RpcReply)
    ensures Execute(sql, "", rpc) == Ok(Answer([], MissingJwtNote))
  {
  }

  /** With a token, an unsafe statement is rejected. */
  lemma UnsafeRejected(sql: string, jwt: string, rpc: string -> RpcReply)
    requires jwt != "" && !IsSafe(sql)
    ensures Execute(sql, jwt, rpc) == Ok(Answer([], RejectedNote))
  {
  }

  /** A rejected request never consults the RPC: any two RPCs give the same answer. */
  lemma RejectionIgnoresRpc(sql: string, jwt: string, rpc1: string -> RpcReply, rpc2: string -> RpcReply)
    requires jwt == "" || !IsSafe(sql)
    ensures Execute(sql, jwt, rpc1) == Execute(sql, jwt, rpc2)
    ensures Execute(sql, jwt, rpc1).Ok? && Execute(sql, jwt, rpc1).value.rows == []
  {
  }

  /**
   * With a token and a safe statement, the answer is the RPC's reply to the
   * limited statement, which passes the safety test itself, carries a limit
   * and does not end in a semicolon.
   */
  lemma SafeStatementSubmitted(sql: string, jwt: string, rpc: string -> RpcReply)
    requires jwt != "" && IsSafe(sql)
    ensures Execute(sql, jwt, rpc) == Respond(rpc(Limited(NormalizeSql(sql))))
    ensures SafeSubmission(Limited(NormalizeSql(sql)))
  {
    assert Gate(sql, jwt) == Submit(Limited(NormalizeSql(sql)));
    GateSubmitsSafeStatement(sql, jwt);
  }

  /** Rows come back only when the statement was submitted and the RPC returned some, under the success note. */
  lemma RowsOnlyOnSuccess(sql: string, jwt: string, rpc: string -> RpcReply)
    requires Execute(sql, jwt, rpc).Ok? && Execute(sql, jwt, rpc).value.rows != []
    ensures jwt != "" && IsSafe(sql)
    ensures Execute(sql, jwt, rpc).value.note == SuccessNote
    ensures rpc(Limited(NormalizeSql(sql))).Data?
  {
    if jwt == "" {
      MissingJwtAnswered(sql, rpc);
    } else if !IsSafe(sql) {
      UnsafeRejected(sql, jwt, rpc);
    } else {
      SafeStatementSubmitted(sql, jwt, rpc);
    }
  }

  /** As written, an empty token is answered before the safety test and before any call. */
  lemma AsWrittenMissingJwtAnswered(sql: string, rpc: string -> RpcReply)
    ensures ExecuteAsWritten(sql, "", rpc) == Ok(Answer([], MissingJwtNote))
  {
  }

  /** As written, a request is rejected without consulting the RPC when the test fails on the normalised text. */
  lemma AsWrittenRejectionIgnoresRpc(sql: string, jwt: string, rpc1: string -> RpcReply, rpc2: string -> RpcReply)
    requires jwt != "" && !IsSafe(NormalizeSql(sql))
    ensures ExecuteAsWritten(sql, jwt, rpc1) == ExecuteAsWritten(sql, jwt, rpc2) == Ok(Answer([], RejectedNote))
  {
  }

  /**
   * As written, with a token and a normalised text that passes the test, the
   * answer is the RPC's reply to the limited normal form, which carries a
   * limit and does not end in a semicolon.
   */
  lemma AsWrittenSubmitted(sql: string, jwt: string, rpc: string -> RpcReply)
    requires jwt != "" && IsSafe(NormalizeSql(sql))
    ensures ExecuteAsWritten(sql, jwt, rpc) == Respond(rpc(Limited(NormalizeSql(sql))))
    ensures HasLimit(Limited(NormalizeSql(sql)))
    ensures Limited(NormalizeSql(sql)) != [] && Limited(NormalizeSql(sql))[|Limited(NormalizeSql(sql))| - 1] != ';'
  {
    assert GateAsWritten(sql, jwt).Submit?;
  }

  /** Where the corrected executor does not reject, or the token is missing, the two executors answer alike. */
  lemma ExecuteRefinesAsWritten(sql: string, jwt: string, rpc: string -> RpcReply)
    requires jwt == "" || IsSafe(sql)
    ensures Execute(sql, jwt, rpc) == ExecuteAsWritten(sql, jwt, rpc)
  {
    if jwt != "" {
      GateRefinesAsWritten(sql, jwt);
    }
  }
}
