/**
 * `ensure_limit_clause`: a statement without a `LIMIT <digits>` gets the
 * default row cap appended, and every statement leaves with exactly one
 * trailing semicolon.
 */
module SqlLimit {
  import opened PyStr
  import opened SqlPatterns

  const Semicolons: set<char> := {';'}

  /** The clause appended when the statement carries no limit of its own (the default top of 20 rows). */
  const DefaultLimit := " LIMIT 20"

  /** The statement trimmed and stripped of its trailing semicolons. */
  function LimitCore(sql: string): (c: string)
    ensures c == [] || c[|c| - 1] != ';'
  {
    RStripChars(Strip(sql), Semicolons)
  }

  /** The appended clause is itself a `LIMIT <digits>` match, running to the end of the text. */
  lemma DefaultLimitMatches(c: string)
    ensures LimitAt(c + DefaultLimit, |c| + 1)
  {
    var s := c + DefaultLimit;
    var p := |c| + 1;
    assert s[p - 1] == ' ';
    assert s[p] == 'L' && s[p + 1] == 'I' && s[p + 2] == 'M' && s[p + 3] == 'I' && s[p + 4] == 'T';
    assert s[p + 5] == ' ' && s[p + 6] == '2' && s[p + 7] == '0' && p + 8 == |s|;
    RunEndUnique(s, p + 5, Whitespace, p + 6);
    RunEndUnique(s, p + 6, Digits, p + 8);
  }

  /** `ensure_limit_clause`: the result ends in exactly one semicolon. */
  function EnsureLimitClause(sql: string): (r: string)
    ensures |r| >= 2 && r[|r| - 1] == ';' && r[|r| - 2] != ';'
  {
    var c := LimitCore(sql);
    if HasLimit(c) then
      c + ";"
    else
      c + DefaultLimit + ";"
  }

  /** A statement that already has a limit, whatever its number, keeps it and only regains one semicolon. */
  lemma EnsureLimitKeepsExisting(sql: string)
    requires HasLimit(LimitCore(sql))
    ensures EnsureLimitClause(sql) == LimitCore(sql) + ";"
  {
  }

  /**
   * A `LIMIT <digits>` match that starts before a seam followed by a space
   * and then a character that is neither whitespace nor a digit lies
   * wholly before the seam.
   */
  lemma LimitAtBeforeSeam(c: string, t: string, p: int)
    requires |t| >= 2 && t[0] == ' ' && t[1] !in Whitespace && t[1] !in Digits
    requires 0 <= p < |c| && LimitAt(c + t, p)
    ensures LimitAt(c, p)
  {
    var s := c + t;
    assert s[|c|] == ' ' && s[|c| + 1] == t[1];
    var j := RunEnd(s, p + 5, Whitespace);
    var k := RunEnd(s, j, Digits);
    forall i | p + 5 <= i < j
      ensures c[i] in Whitespace
    {
      assert c[i] == s[i];
    }
    assert c[j] == s[j];
    RunEndUnique(c, p + 5, Whitespace, j);
    forall i | j <= i < k
      ensures c[i] in Digits
    {
      assert c[i] == s[i];
    }
    if k < |c| {
      assert c[k] == s[k];
    }
    RunEndUnique(c, j, Digits, k);
    if p > 0 {
      assert c[p - 1] == s[p - 1];
    }
    assert c[p] == s[p] && c[p + 1] == s[p + 1] && c[p + 2] == s[p + 2];
    assert c[p + 3] == s[p + 3] && c[p + 4] == s[p + 4];
  }

  /**
   * A statement without a limit gets the default one appended, and the
   * result then holds exactly one `LIMIT <digits>` match: the appended one.
   */
  lemma EnsureLimitAppendsDefault(sql: string)
    requires !HasLimit(LimitCore(sql))
    ensures EnsureLimitClause(sql) == LimitCore(sql) + DefaultLimit + ";"
    ensures forall p | 0 <= p <= |EnsureLimitClause(sql)| :: LimitAt(EnsureLimitClause(sql), p) <==> p == |LimitCore(sql)| + 1
  {
    var c := LimitCore(sql);
    var t := DefaultLimit + ";";
    var r := EnsureLimitClause(sql);
    assert r == c + t;
    assert t[0] == ' ' && t[1] == 'L';
    DefaultLimitTailMatches(c);
    forall p | 0 <= p <= |r| && LimitAt(r, p)
      ensures p == |c| + 1
    {
      if p < |c| {
        LimitAtBeforeSeam(c, t, p);
        assert HasLimit(c);
      } else {
        LimitOnlyAtSeam(c, p);
      }
    }
  }

  /** Within the appended ` LIMIT 20;` the only place a match can start is its `L`. */
  lemma LimitOnlyAtSeam(c: string, p: int)
    requires |c| <= p && LimitAt(c + DefaultLimit + ";", p)
    ensures p == |c| + 1
  {
    var t := DefaultLimit + ";";
    var s := c + DefaultLimit + ";";
    assert s == c + t;
    assert t[0] == ' ' && t[2] == 'I' && t[3] == 'M' && t[4] == 'I' && t[5] == 'T';
    assert t[6] == ' ' && t[7] == '2' && t[8] == '0' && t[9] == ';' && |t| == 10;
    assert s[p] == t[p - |c|];
  }

  /** The appended clause, followed by the semicolon, is still a match at the same place. */
  lemma DefaultLimitTailMatches(c: string)
    ensures LimitAt(c + DefaultLimit + ";", |c| + 1)
  {
    var s := c + DefaultLimit + ";";
    var p := |c| + 1;
    assert s[p - 1] == ' ';
    assert s[p] == 'L' && s[p + 1] == 'I' && s[p + 2] == 'M' && s[p + 3] == 'I' && s[p + 4] == 'T';
    assert s[p + 5] == ' ' && s[p + 6] == '2' && s[p + 7] == '0' && s[p + 8] == ';' && p + 9 == |s|;
    RunEndUnique(s, p + 5, Whitespace, p + 6);
    RunEndUnique(s, p + 6, Digits, p + 8);
  }

  /** Whatever the input, the result before its semicolon carries a `LIMIT <digits>`. */
  lemma EnsureLimitHasLimit(sql: string)
    ensures HasLimit(EnsureLimitClause(sql)[..|EnsureLimitClause(sql)| - 1])
  {
    var c := LimitCore(sql);
    var r := EnsureLimitClause(sql);
    if HasLimit(c) {
      EnsureLimitKeepsExisting(sql);
      assert r[..|r| - 1] == c;
    } else {
      EnsureLimitAppendsDefault(sql);
      assert r[..|r| - 1] == c + DefaultLimit;
      DefaultLimitMatches(c);
    }
  }

  /** A statement that starts with a non-space and ends in exactly one semicolon loses just that semicolon. */
  lemma CoreOfTerminated(body: string)
    requires body != [] && !IsSpace(body[0]) && body[|body| - 1] != ';'
    ensures LimitCore(body + ";") == body
  {
    var r := body + ";";
    assert r[0] == body[0] && r[|r| - 1] == ';';
    StripUnchanged(r);
    if |body| == 1 {
      assert TrailStart(r, Semicolons, 1) == 1;
    } else {
      RStripOne(r, Semicolons);
    }
    assert r[..|r| - 1] == body;
  }

  /** A non-empty core is trimmed at its front. */
  lemma CoreStartsWithNonSpace(sql: string)
    requires LimitCore(sql) != []
    ensures !IsSpace(LimitCore(sql)[0])
  {
    var st := Strip(sql);
    var c := LimitCore(sql);
    assert c == st[..|c|];
    assert c[0] == st[0];
  }

  /** The two shapes a limited statement can take both have the statement before the semicolon as their core. */
  lemma CoreOfEitherShape(c: string, r: string)
    requires c != [] && !IsSpace(c[0]) && c[|c| - 1] != ';'
    requires r == c + ";" || r == c + DefaultLimit + ";"
    ensures LimitCore(r) == r[..|r| - 1]
  {
    var body := r[..|r| - 1];
    assert body[0] == c[0];
    assert body + ";" == r;
    assert body[|body| - 1] != ';';
    CoreOfTerminated(body);
  }

  /** The two shapes of the result: the core with a semicolon, or the core with the default limit and a semicolon. */
  lemma EnsureLimitShape(sql: string)
    ensures EnsureLimitClause(sql) == LimitCore(sql) + ";" || EnsureLimitClause(sql) == LimitCore(sql) + DefaultLimit + ";"
  {
  }

  /** The result without its semicolon is the core of the result. */
  lemma CoreOfLimited(sql: string)
    requires LimitCore(sql) != []
    ensures LimitCore(EnsureLimitClause(sql)) == EnsureLimitClause(sql)[..|EnsureLimitClause(sql)| - 1]
  {
    var c := LimitCore(sql);
    CoreStartsWithNonSpace(sql);
    assert c[|c| - 1] != ';';
    EnsureLimitShape(sql);
    CoreOfEitherShape(c, EnsureLimitClause(sql));
  }

  /** Applying the limit twice is applying it once, unless the statement is blank or only semicolons. */
  lemma EnsureLimitIdempotent(sql: string)
    requires LimitCore(sql) != []
    ensures EnsureLimitClause(EnsureLimitClause(sql)) == EnsureLimitClause(sql)
  {
    var r := EnsureLimitClause(sql);
    CoreOfLimited(sql);
    EnsureLimitHasLimit(sql);
    EnsureLimitKeepsExisting(r);
    assert r[..|r| - 1] + ";" == r;
  }

  /** A character that is neither whitespace nor a semicolon keeps the core non-empty. */
  lemma LimitCoreNonEmpty(sql: string, i: int)
    requires 0 <= i < |sql| && sql[i] !in Whitespace && sql[i] != ';'
    ensures LimitCore(sql) != []
  {
    var l := LStripChars(sql, Whitespace);
    LStripKeeps(sql, Whitespace, i);
    LStripIsSuffix(sql, Whitespace);
    var j := i - (|sql| - |l|);
    assert l[j] == sql[i];
    var st := RStripChars(l, Whitespace);
    RStripKeeps(l, Whitespace, j);
    assert st[j] == sql[i];
    assert st == Strip(sql);
    RStripKeeps(st, Semicolons, j);
  }

  /** A blank statement is not a fixed point: the first pass adds a leading space that the second trims. */
  lemma EnsureLimitBlankNotIdempotent()
    ensures EnsureLimitClause("") == DefaultLimit + ";"
    ensures EnsureLimitClause(EnsureLimitClause("")) != EnsureLimitClause("")
  {
    var r := DefaultLimit + ";";
    assert r[0] == ' ' && r[1] == 'L';
    LimitCoreNonEmpty(r, 1);
    CoreStartsWithNonSpace(r);
    var c := LimitCore(r);
    assert c[0] != ' ';
    assert LimitCore("") == "";
    EnsureLimitAppendsDefault("");
    EnsureLimitShape(r);
    assert EnsureLimitClause(r)[0] == c[0];
  }
}
