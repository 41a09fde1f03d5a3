/**
 * The extraction branch of `generate_sql_query`: the model's reply is read
 * as a JSON object with a "sql" field once its fence markers are removed;
 * when that fails, the first `select ... ;` span is taken from the reply
 * instead. The retrieval, the prompt, the model and the JSON parser are
 * parameters.
 */
module SqlExtract {
  import opened Wrappers
  import opened PyStr
  import opened SqlPatterns
  import Rag

  /** What `data.get("sql", "")` finds in a parsed object: no such key, a string, or some other JSON value. */
  datatype SqlField = Absent | Str(s: string) | NotStr

  /** What `json.loads` makes of the cleaned reply: a failure, a value that is not an object, or an object. */
  datatype JsonDoc = Unparseable | NotObject | Object(sql: SqlField)

  /** The characters trimmed from both ends of the reply once its fence markers are gone. */
  const FenceTrim: set<char> := {'`', ' ', '\n'}

  /**
   * `re.sub(r"```(json)?", "", s)`: every triple backtick is deleted,
   * together with a "json" right after it, scanning left to right.
   */
  function RemoveFenceMarkers(s: string): (r: string)
    ensures |r| <= |s|
    decreases |s|
  {
    if |s| < 3 then s
    else if s[..3] == "```" then
      if |s| >= 7 && s[3..7] == "json" then RemoveFenceMarkers(s[7..]) else RemoveFenceMarkers(s[3..])
    else [s[0]] + RemoveFenceMarkers(s[1..])
  }

  /** Text without a backtick holds no marker and is left as it is. */
  lemma {:induction false} RemoveFenceMarkersPlain(p: string, t: string)
    requires '`' !in p
    ensures RemoveFenceMarkers(p + t) == p + RemoveFenceMarkers(t)
    decreases |p|
  {
    if p != [] {
      var s := p + t;
      assert s[0] == p[0];
      if |s| >= 3 {
        assert s[..3][0] == p[0];
        assert s[1..] == p[1..] + t;
        RemoveFenceMarkersPlain(p[1..], t);
      } else {
        assert |t| < 3;
      }
    } else {
      assert p + t == t;
    }
  }

  /** Deletion keeps a leading backtick only where the input has one. */
  lemma {:induction false} FenceOutputBacktickFirst(t: string)
    requires RemoveFenceMarkers(t) != [] && RemoveFenceMarkers(t)[0] == '`'
    ensures t != [] && t[0] == '`'
    decreases |t|
  {
    if |t| >= 3 && t[..3] == "```" {
      assert t[0] == t[..3][0];
    }
  }

  /** Deletion keeps two leading backticks only where the input has two. */
  lemma {:induction false} FenceOutputBacktickPair(t: string)
    requires |RemoveFenceMarkers(t)| >= 2 && RemoveFenceMarkers(t)[0] == '`' && RemoveFenceMarkers(t)[1] == '`'
    ensures |t| >= 2 && t[0] == '`' && t[1] == '`'
    decreases |t|
  {
    if |t| >= 3 && t[..3] == "```" {
      assert t[0] == t[..3][0] && t[1] == t[..3][1];
    } else if |t| >= 3 {
      var r := RemoveFenceMarkers(t);
      assert r == [t[0]] + RemoveFenceMarkers(t[1..]);
      FenceOutputBacktickFirst(t[1..]);
    }
  }

  /** After the deletion no triple backtick is left, not even one formed by joining the text around a deleted marker. */
  lemma {:induction false} RemoveFenceMarkersLeavesNone(s: string)
    ensures !Contains(RemoveFenceMarkers(s), "```")
    decreases |s|
  {
    var r := RemoveFenceMarkers(s);
    if |s| < 3 {
      assert forall i | 0 <= i <= |r| :: !OccursAt(r, "```", i);
    } else if s[..3] == "```" {
      if |s| >= 7 && s[3..7] == "json" {
        RemoveFenceMarkersLeavesNone(s[7..]);
      } else {
        RemoveFenceMarkersLeavesNone(s[3..]);
      }
    } else {
      var rest := RemoveFenceMarkers(s[1..]);
      assert r == [s[0]] + rest;
      assert s[..3] == [s[0], s[1], s[2]];
      RemoveFenceMarkersLeavesNone(s[1..]);
      if |rest| >= 2 && rest[0] == '`' && rest[1] == '`' {
        FenceOutputBacktickPair(s[1..]);
      }
      forall i | 0 <= i <= |r|
        ensures !OccursAt(r, "```", i)
      {
        if i > 0 && i + 3 <= |r| {
          assert r[i..i + 3] == rest[i - 1..i + 2];
          assert !OccursAt(rest, "```", i - 1);
        }
        if i == 0 && 3 <= |r| {
          assert r[..3] == [s[0], rest[0], rest[1]];
        }
      }
    }
  }

  /** The text handed to the JSON parser. */
  function JsonCandidate(response: string): (c: string)
    ensures c == [] || (c[0] !in FenceTrim && c[|c| - 1] !in FenceTrim)
  {
    StripChars(RemoveFenceMarkers(response), FenceTrim)
  }

  /** A fallback result: empty, or starting with the letters of SELECT and ending in its only semicolon after them. */
  predicate FallbackShaped(r: string)
  {
    r == [] || (SelectLettersAt(r, 0) && r[|r| - 1] == ';' && forall k | 6 <= k < |r| - 1 :: r[k] != ';')
  }

  /** The span from a `select\b` to the first semicolon after it has that shape. */
  lemma SpanShaped(s: string, i: nat, j: nat)
    requires SelectThenBoundary(s, i)
    requires i + 6 <= j < |s| && s[j] == ';' && forall k | i + 6 <= k < j :: s[k] != ';'
    ensures FallbackShaped(s[i..j + 1])
  {
    var span := s[i..j + 1];
    assert forall d | 0 <= d < |span| :: span[d] == s[i + d];
  }

  /**
   * `re.search(r"(?is)(select\b.*?;)", s)`, trimmed: from the first
   * `select` followed by a word boundary, up to and including the first
   * semicolon after it; "" when there is no such span. A later `select`
   * cannot help when the first has no semicolon after it, so only the
   * first is tried.
   */
  function FallbackSql(s: string): (r: string)
    ensures IsStripped(r)
  {
    var m := FirstSelectThenBoundary(s, 0);
    if m.None? then ""
    else
      var e := FirstCharFrom(s, ';', m.value + 6);
      if e.None? then "" else Strip(s[m.value..e.value + 1])
  }

  /** The span found at the first `select\b` is the shortest one ending in a semicolon; nothing around it is trimmed. */
  lemma FallbackIsShortestSpan(s: string, i: nat, j: nat)
    requires SelectThenBoundary(s, i) && forall k | 0 <= k < i :: !SelectThenBoundary(s, k)
    requires i + 6 <= j < |s| && s[j] == ';' && forall k | i + 6 <= k < j :: s[k] != ';'
    ensures FallbackSql(s) == s[i..j + 1]
  {
    FirstSelectIs(s, 0, i);
    FirstCharIs(s, ';', i + 6, j);
    FallbackAtScan(s);
  }

  /** When both scans succeed, the fallback is the span between the positions they report, untrimmed. */
  lemma FallbackAtScan(s: string)
    requires FirstSelectThenBoundary(s, 0).Some?
    requires FirstCharFrom(s, ';', FirstSelectThenBoundary(s, 0).value + 6).Some?
    ensures FallbackSql(s) == s[FirstSelectThenBoundary(s, 0).value..FirstCharFrom(s, ';', FirstSelectThenBoundary(s, 0).value + 6).value + 1]
  {
    FallbackUnfolds(s);
    SpanUntrimmed(s, FirstSelectThenBoundary(s, 0).value, FirstCharFrom(s, ';', FirstSelectThenBoundary(s, 0).value + 6).value);
  }

  /** The fallback, with the two scans' answers spelled out. */
  lemma FallbackUnfolds(s: string)
    ensures FallbackSql(s) == (
      if FirstSelectThenBoundary(s, 0).None? then ""
      else if FirstCharFrom(s, ';', FirstSelectThenBoundary(s, 0).value + 6).None? then ""
      else Strip(s[FirstSelectThenBoundary(s, 0).value..FirstCharFrom(s, ';', FirstSelectThenBoundary(s, 0).value + 6).value + 1]))
  {
  }

  /** A span from a letter to a semicolon has nothing to trim. */
  lemma SpanUntrimmed(s: string, i: nat, j: nat)
    requires SelectLettersAt(s, i) && i + 6 <= j < |s| && s[j] == ';'
    ensures Strip(s[i..j + 1]) == s[i..j + 1]
  {
    var span := s[i..j + 1];
    assert span[0] == s[i] && span[|span| - 1] == ';';
    assert UpperChar(span[0]) == 'S';
    StripUnchanged(span);
  }

  /** Without any `select\b` there is no span. */
  lemma FallbackNoSelect(s: string)
    requires forall k | 0 <= k <= |s| :: !SelectThenBoundary(s, k)
    ensures FallbackSql(s) == ""
  {
  }

  /** Without a semicolon after the first `select\b` there is no span either. */
  lemma FallbackNoSemicolon(s: string, i: nat)
    requires SelectThenBoundary(s, i) && forall k | 0 <= k < i :: !SelectThenBoundary(s, k)
    requires forall k | i + 6 <= k < |s| :: s[k] != ';'
    ensures FallbackSql(s) == ""
  {
    FirstSelectIs(s, 0, i);
  }

  /** The shape when the scan finds a span. */
  lemma SpanShapedFallback(s: string, i: nat, j: nat)
    requires SelectThenBoundary(s, i) && forall k | 0 <= k < i :: !SelectThenBoundary(s, k)
    requires i + 6 <= j < |s| && s[j] == ';' && forall k | i + 6 <= k < j :: s[k] != ';'
    ensures FallbackShaped(FallbackSql(s))
  {
    SpanShaped(s, i, j);
    FallbackIsShortestSpan(s, i, j);
  }

  /** Whatever the fallback returns is so shaped. */
  lemma FallbackShape(s: string)
    ensures FallbackShaped(FallbackSql(s))
  {
    var m := FirstSelectThenBoundary(s, 0);
    forall k | 0 <= k <= |s| && (m.Some? ==> k < m.value)
      ensures !SelectThenBoundary(s, k)
    {
      FirstSelectSkips(s, 0, k);
    }
    if m.None? {
      FallbackNoSelect(s);
    } else {
      var i := m.value;
      var e := FirstCharFrom(s, ';', i + 6);
      forall k | i + 6 <= k < |s| && (e.Some? ==> k < e.value)
        ensures s[k] != ';'
      {
        FirstCharSkips(s, ';', i + 6, k);
      }
      if e.None? {
        FallbackNoSemicolon(s, i);
      } else {
        SpanShapedFallback(s, i, e.value);
      }
    }
  }

  /**
   * The extraction of lines 26-33 applied to the already trimmed reply: a
   * parsed object gives its "sql" string trimmed, or "" without that key;
   * any failure (no JSON, not an object, a "sql" value that is not a
   * string) falls back to the `select ... ;` scan of the reply.
   */
  function ExtractSql(response: string, parse: string -> JsonDoc): (r: string)
    ensures IsStripped(r)
  {
    match parse(JsonCandidate(response))
    case Object(Str(sql)) => Strip(sql)
    case Object(Absent) => ""
    case _ => FallbackSql(response)
  }

  /** Any reply the parser cannot read as an object with a string or absent "sql" goes to the fallback scan. */
  lemma ExtractFallsBack(response: string, parse: string -> JsonDoc)
    requires !parse(JsonCandidate(response)).Object? || parse(JsonCandidate(response)).sql.NotStr?
    ensures ExtractSql(response, parse) == FallbackSql(response)
  {
  }

  /** An object's "sql" string is returned trimmed; the fallback is not consulted. */
  lemma ExtractTakesJsonField(response: string, parse: string -> JsonDoc, sql: string)
    requires parse(JsonCandidate(response)) == Object(Str(sql))
    ensures ExtractSql(response, parse) == Strip(sql)
  {
  }

  /** An object without "sql" gives "", even when the reply holds a statement the fallback would find. */
  lemma ExtractAbsentFieldIsEmpty(response: string, parse: string -> JsonDoc)
    requires parse(JsonCandidate(response)) == Object(Absent)
    ensures ExtractSql(response, parse) == ""
  {
  }

  /** A JSON body in a "```json" fence reaches the parser as the body alone. */
  lemma FencedJsonCandidate(j: string)
    requires '`' !in j && j != [] && j[0] !in FenceTrim && j[|j| - 1] !in FenceTrim
    ensures JsonCandidate("```json\n" + j + "\n```") == j
  {
    var s := "```json\n" + j + "\n```";
    var body := "\n" + j + "\n";
    assert s[..3] == "```" && s[3..7] == "json";
    assert s[7..] == body + "```";
    assert '`' !in body;
    RemoveFenceMarkersPlain(body, "```");
    assert RemoveFenceMarkers("```") == "";
    assert RemoveFenceMarkers(s) == body;
    LStripOne(body, FenceTrim);
    var t := body[1..];
    assert t == j + "\n";
    RStripOne(t, FenceTrim);
    assert t[..|t| - 1] == j;
  }

  /** A reply that is a "```json" fence around a body the parser reads as an object with a "sql" string gives that string trimmed. */
  lemma FencedJsonExtracted(j: string, sql: string, parse: string -> JsonDoc)
    requires '`' !in j && j != [] && j[0] !in FenceTrim && j[|j| - 1] !in FenceTrim
    requires parse(j) == Object(Str(sql))
    ensures ExtractSql("```json\n" + j + "\n```", parse) == Strip(sql)
  {
    FencedJsonCandidate(j);
  }

  /** Example: a fenced `{"sql": "SELECT 1;"}` gives `SELECT 1;`, given the parser reads that body as such an object. */
  lemma FencedJsonExample(j: string, sql: string, parse: string -> JsonDoc)
    requires j == "{\"sql\": \"SELECT 1;\"}" && sql == "SELECT 1;"
    requires parse(j) == Object(Str(sql))
    ensures ExtractSql("```json\n" + j + "\n```", parse) == sql
  {
    assert '`' !in j && j[0] == '{' && j[|j| - 1] == '}';
    assert sql[0] == 'S' && sql[|sql| - 1] == ';';
    StripUnchanged(sql);
    FencedJsonExtracted(j, sql, parse);
  }

  /** A reply of prose without `select\b` followed by a statement that starts with one and has its only semicolon at the end falls back to that statement. */
  lemma FallbackFindsStatement(p: string, st: string)
    requires forall k | 0 <= k < |p| :: !SelectThenBoundary(p + st, k)
    requires SelectThenBoundary(st, 0) && st[|st| - 1] == ';'
    requires forall k | 6 <= k < |st| - 1 :: st[k] != ';'
    ensures FallbackSql(p + st) == st
  {
    var s := p + st;
    var i := |p|;
    assert s[i..i + 6] == st[..6];
    assert SelectThenBoundary(s, i) by {
      assert forall d | 0 <= d < 6 :: s[i + d] == st[d];
      if i + 6 < |s| {
        assert s[i + 6] == st[6];
      }
    }
    forall k | i + 6 <= k < |s| - 1
      ensures s[k] != ';'
    {
      assert s[k] == st[k - i];
    }
    FallbackIsShortestSpan(s, i, |s| - 1);
    assert s[i..|s|] == st;
  }

  /** Example: "Sure! SELECT id FROM t;" falls back to "SELECT id FROM t;". */
  lemma FallbackExample(p: string, st: string)
    requires p == "Sure! " && st == "SELECT id FROM t;"
    ensures FallbackSql(p + st) == st
  {
    var s := p + st;
    forall k | 0 <= k < |p|
      ensures !SelectThenBoundary(s, k)
    {
      if k != 0 {
        assert UpperChar(s[k]) != 'S';
      } else {
        assert UpperChar(s[1]) != 'E';
      }
    }
    assert st[6] == ' ';
    forall k | 6 <= k < |st| - 1
      ensures st[k] != ';'
    {
    }
    FallbackFindsStatement(p, st);
  }

  /**
   * `generate_sql_query`: the retrieved context (one document, at most 1500
   * characters) and the question are rendered into the prompt, the model's
   * reply is trimmed and the SQL extracted from it. Failures of the vector
   * store or of the model propagate; the extraction itself never fails.
   */
  function GenerateSqlQuery(
    question: string,
    search: (string, int) -> Result<seq<string>>,
    render: (string, string) -> string,
    invoke: string -> Result<string>,
    parse: string -> JsonDoc): (r: Result<string>)
    ensures r.Ok? ==> IsStripped(r.value)
    ensures r.Raised? <==>
      (Rag.RetrieveContext(question, 1, 1500, search).Raised? ||
       invoke(render(Rag.RetrieveContext(question, 1, 1500, search).value, question)).Raised?)
    ensures r.Ok? ==>
      r.value == ExtractSql(Strip(invoke(render(Rag.RetrieveContext(question, 1, 1500, search).value, question)).value), parse)
  {
    match Rag.RetrieveContext(question, 1, 1500, search)
    case Raised(e) => Raised(e)
    case Ok(context) =>
      match invoke(render(context, question))
      case Raised(e) => Raised(e)
      case Ok(content) => Ok(ExtractSql(Strip(content), parse))
  }

  /**
   * With one document retrieved, the prompt is rendered from at most 1500
   * characters taken from its front, and the model's reply to that prompt,
   * trimmed, is what the SQL is extracted from.
   */
  lemma GenerateUsesBoundedContext(question: string, search: (string, int) -> Result<seq<string>>, doc: string,
                                   render: (string, string) -> string, invoke: string -> Result<string>,
                                   parse: string -> JsonDoc)
    requires search(question, 1) == Ok([doc])
    ensures |PyPrefix(doc, 1500)| == (if |doc| < 1500 then |doc| else 1500) && StartsWith(doc, PyPrefix(doc, 1500))
    ensures var reply := invoke(render(PyPrefix(doc, 1500), question));
      GenerateSqlQuery(question, search, render, invoke, parse) ==
        if reply.Raised? then Raised(reply.message) else Ok(ExtractSql(Strip(reply.value), parse))
  {
    Rag.ContextOfOneDocument(doc, 1500);
  }
}
