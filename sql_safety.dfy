/**
 * `is_safe_sql_query`: after normalisation, the upper-cased statement must
 * start with SELECT and must contain none of ten forbidden keywords, each
 * tested as a plain substring.
 */
module SqlSafety {
  import opened PyStr
  import opened SqlPatterns
  import opened SqlNormalize

  const Forbidden: seq<string> :=
    ["INSERT", "UPDATE", "DELETE", "MERGE", "ALTER", "DROP", "TRUNCATE", "CREATE", "EXEC", "EXECUTE"]

  /** The test applied to a statement that has already been normalised. */
  predicate SafeStatement(t: string)
    ensures SafeStatement(t) ==> |t| >= 6
  {
    var u := Strip(Upper(t));
    StartsWith(u, "SELECT") && forall k | 0 <= k < |Forbidden| :: !Contains(u, Forbidden[k])
  }

  /** What `is_safe_sql_query` answers: the test applied to the normalised text. */
  predicate IsSafe(sql: string)
  {
    SafeStatement(NormalizeSql(sql))
  }

  /** The loop of `is_safe_sql_query`: every forbidden keyword is tested in turn, returning at the first hit. */
  method NoForbiddenKeyword(upperQuery: string) returns (clean: bool)
    ensures clean == forall k | 0 <= k < |Forbidden| :: !Contains(upperQuery, Forbidden[k])
  {
    var i := 0;
    while i < |Forbidden|
      invariant 0 <= i <= |Forbidden|
      invariant forall k | 0 <= k < i :: !Contains(upperQuery, Forbidden[k])
    {
      if Contains(upperQuery, Forbidden[i]) {
        return false;
      }
      i := i + 1;
    }
    return true;
  }

  /** `is_safe_sql_query`. */
  method IsSafeSqlQuery(sqlQuery: string) returns (safe: bool)
    ensures safe == IsSafe(sqlQuery)
  {
    var q := NormalizeSql(sqlQuery);
    var upperQuery := Strip(Upper(q));
    if !StartsWith(upperQuery, "SELECT") {
      return false;
    }
    safe := NoForbiddenKeyword(upperQuery);
  }

  /** Upper-casing trimmed text leaves it trimmed, so the second trim of the check changes nothing. */
  lemma UpperKeepsStripped(t: string)
    requires IsStripped(t)
    ensures Strip(Upper(t)) == Upper(t)
  {
    StripUnchanged(Upper(t));
  }

  /** An occurrence survives upper-casing both texts. */
  lemma ContainsUpper(s: string, w: string)
    requires Contains(s, w)
    ensures Contains(Upper(s), Upper(w))
  {
    var i :| 0 <= i <= |s| && OccursAt(s, w, i);
    UpperSlice(s, i, i + |w|);
    assert OccursAt(Upper(s), Upper(w), i);
  }

  /** A forbidden keyword anywhere in a trimmed statement, in any letter case, fails the test. */
  lemma ForbiddenKeywordFails(t: string, w: string, k: nat)
    requires IsStripped(t) && k < |Forbidden| && Upper(w) == Forbidden[k]
    requires Contains(t, w)
    ensures !SafeStatement(t)
  {
    UpperKeepsStripped(t);
    ContainsUpper(t, w);
  }

  /** A forbidden keyword anywhere in the normalised text, in any letter case, makes the query unsafe. */
  lemma ForbiddenKeywordRejected(sql: string, w: string, k: nat)
    requires k < |Forbidden| && Upper(w) == Forbidden[k]
    requires Contains(NormalizeSql(sql), w)
    ensures !IsSafe(sql)
  {
    ForbiddenKeywordFails(NormalizeSql(sql), w, k);
  }

  /** Upper-casing that yields a leading SELECT means the letters of SELECT, in some letter case, lead. */
  lemma UpperSelectPrefix(t: string)
    requires StartsWith(Upper(t), "SELECT")
    ensures SelectLettersAt(t, 0)
  {
    var u := Upper(t);
    assert u[..6] == "SELECT";
    assert u[0] == 'S' && u[1] == 'E' && u[2] == 'L' && u[3] == 'E' && u[4] == 'C' && u[5] == 'T';
  }

  /** A trimmed statement that passes the test starts with the letters of SELECT, in some letter case. */
  lemma SafeStatementStartsWithSelect(t: string)
    requires IsStripped(t) && SafeStatement(t)
    ensures SelectLettersAt(t, 0)
  {
    UpperKeepsStripped(t);
    UpperSelectPrefix(t);
  }

  /** A normal form that passes the test is its own normal form, so the test as written sees the same text. */
  lemma SafeNormalFormStable(sql: string)
    requires SafeStatement(NormalizeSql(sql))
    ensures NormalizeSql(NormalizeSql(sql)) == NormalizeSql(sql)
  {
    var u := Unfence(sql);
    if FirstWholeWordSelect(u, 0).Some? {
      NormalizeIdempotentWhenSelectFound(sql);
    } else {
      var q := NormalizeSql(sql);
      NormalizeWithoutSelect(sql);
      SafeStatementStartsWithSelect(q);
      NoFenceWithoutBacktick(q);
      UnfenceOfUnfenced(q);
      NormalizeWithoutSelect(q);
    }
  }

  /** Text whose normalised form does not start with the letters of SELECT is rejected. */
  lemma NoSelectPrefixRejected(sql: string)
    requires !SelectLettersAt(NormalizeSql(sql), 0)
    ensures !IsSafe(sql)
  {
    if IsSafe(sql) {
      SafeStatementStartsWithSelect(NormalizeSql(sql));
    }
  }

  /** `created_time` contains `create` and `last_updated_time` contains `update`. */
  lemma TimestampColumnHoldsKeyword(t: string)
    requires IsStripped(t) && (Contains(t, "created_time") || Contains(t, "last_updated_time"))
    ensures !SafeStatement(t)
  {
    if Contains(t, "created_time") {
      var i :| 0 <= i <= |t| && OccursAt(t, "created_time", i);
      OccursWithin(t, "created_time", "create", i, 0);
      ForbiddenKeywordFails(t, "create", 7);
    } else {
      var i :| 0 <= i <= |t| && OccursAt(t, "last_updated_time", i);
      OccursWithin(t, "last_updated_time", "update", i, 5);
      ForbiddenKeywordFails(t, "update", 1);
    }
  }

  /**
   * The allowed column `created_time` contains CREATE and `last_updated_time`
   * contains UPDATE, so any query naming either column is rejected.
   */
  lemma RejectsTimestampColumns(sql: string)
    requires Contains(NormalizeSql(sql), "created_time") || Contains(NormalizeSql(sql), "last_updated_time")
    ensures !IsSafe(sql)
  {
    TimestampColumnHoldsKeyword(NormalizeSql(sql));
  }
}
