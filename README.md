# Question-to-SQL gate: a Dafny model

This project models the core of a small natural-language-to-SQL service in Dafny. A question is
posted to `/ask`: a language model proposes SQL for a Supabase table, and the service decides
whether that SQL may reach the database. The steps are:

- **Extraction.** The SQL is pulled out of the model's reply. The reply is first read as a JSON
  object with a `"sql"` field once its code fences are gone. Failing that, the first
  `select … ;` span is taken.
- **Normalisation.** The text is trimmed and a surrounding code fence is dropped. Everything
  before the first whole-word `SELECT` is cut.
- **Safety test.** The normalised text must start with `SELECT`. It must also contain none of
  ten data-changing keywords, matched as substrings in any letter case.
- **Row limit.** `LIMIT 20` is appended unless a `LIMIT <digits>` is already present. The
  statement ends in exactly one semicolon.
- **Execution.** Execution is a ladder of early returns: missing token, rejected statement, then
  a single database RPC whose reply picks the note.
- **The HTTP routes.** `/health` is a constant. `/ask` reads the bearer token, calls the executor
  only for non-blank SQL and folds failures into notes.
- **The retrieval glue.** The retrieved context is joined and truncated. Markdown sections get
  heading paths. Chunks, metadata and ids are assembled for the vector store.

Modules:

| module | file | models |
|---|---|---|
| `Wrappers` | wrappers.dfy | `Option` and `Result` (an exception becomes `Raised(message)`) |
| `PyStr` | py_str.dfy | the ASCII behaviour of `str.strip`, `lstrip`, `rstrip`, `upper`, `startswith`, `in`, `splitlines`, `join` and slicing |
| `SqlPatterns` | sql_patterns.dfy | the regular expressions as character predicates and first-match scans |
| `SqlNormalize` | sql_normalize.dfy | `normalize_sql` |
| `SqlSafety` | sql_safety.dfy | `is_safe_sql_query`, with its keyword loop as a method |
| `SqlLimit` | sql_limit.dfy | `ensure_limit_clause` |
| `SqlExecute` | sql_execute.dfy | `execute_sql_query`: the gate, the reply notes, and the method with its rebinding ladder |
| `SqlExtract` | sql_extract.dfy | the extraction branch and `generate_sql_query` |
| `SqlFinding` | sql_finding.dfy | a concrete input on which the executor as written submits a statement its own test rejects |
| `Rag` | rag.dfy | `retrieve_context`, `split_markdown_with_headers`, `build_update_index` |
| `Router` | router.dfy | `health` and `ask` |

Characters follow ASCII throughout:

- Word characters are `[A-Za-z0-9_]`.
- Case folding is ASCII.
- Whitespace is the ten characters Python's `str.isspace` accepts below 128: space, `\t`, `\n`,
  `\v`, `\f`, `\r` and the separators `\x1c` to `\x1f`.
- `splitlines` breaks on `"\n"` only.

Collaborators that the code calls but does not define are function parameters. Three of them
may fail, and their failures are modelled:

- the similarity search;
- the language model's `invoke`;
- the Supabase client and RPC, whose reply is a client failure, an RPC failure or data.

The others are total functions:

- the prompt renderer;
- the JSON parser, whose result is a JSON value or a parse failure;
- the Markdown and character splitters;
- the file system's `exists` and `read_text`, and `str(Path)`;
- sha256.

## Model

| member | source | states |
|---|---|---|
| PyStr.PyPrefix | app/tools/rag.py:70 | Python's `[:n]`: a prefix of the text, `min(n, len)` long for `n >= 0`, and `len + n` long (at least 0) for negative `n` |
| SqlPatterns.FirstSelectThenBoundary | app/services/search_service.py:32 | a reported position holds `select\b` and lies at or after the start |
| SqlPatterns.FirstWholeWordSelect | app/services/search_service.py:44 | the reported position is the leftmost whole-word SELECT at or after the start, and none means there is none |
| SqlPatterns.LimitAt | app/services/search_service.py:64 | a match at `p` lies inside the text and spans at least seven characters; what it matches is `LimitAtIsMatch` |
| SqlPatterns.HasLimit | app/services/search_service.py:64 | a text with a match is at least seven characters long; that this is `re.search` is `HasLimitIsSearch` |
| SqlPatterns.LimitAtIsMatch | app/services/search_service.py:64 | the maximal-run test agrees with the backtracking reading: a boundary, LIMIT in any case, some whitespace run, some digit run, a boundary |
| SqlPatterns.HasLimitIsSearch | app/services/search_service.py:64 | the search succeeds exactly when some position holds a backtracking match |
| PyStr.Strip | app/services/search_service.py:36 | the result of `strip()` has no whitespace at either end |
| PyStr.StripIsSlice | app/services/search_service.py:36 | the result of `strip()` is the slice of the input that begins where the leading whitespace ends |
| PyStr.StripEmptyExactlyWhenAllSpace | app/services/search_service.py:36 | `strip()` leaves nothing exactly when every character is whitespace |
| SqlExtract.RemoveFenceMarkers | app/services/search_service.py:27 | deleting the markers never lengthens the text; that every marker is gone is `RemoveFenceMarkersLeavesNone` |
| SqlExtract.FenceOutputBacktickFirst | app/services/search_service.py:27 | a backtick at the front of the deleted text was at the front of the input |
| SqlExtract.FenceOutputBacktickPair | app/services/search_service.py:27 | two backticks at the front of the deleted text were at the front of the input |
| SqlExtract.RemoveFenceMarkersLeavesNone | app/services/search_service.py:27 | for every input, no ```` ``` ```` is left after the deletion, not even one formed across a deleted marker |
| SqlExtract.RemoveFenceMarkersPlain | app/services/search_service.py:27 | text without a backtick passes through marker deletion unchanged |
| SqlExtract.JsonCandidate | app/services/search_service.py:27 | the text handed to the parser has no backtick, space or newline at either end |
| SqlExtract.FencedJsonCandidate | app/services/search_service.py:27 | a `"```json\n" + body + "\n```"` reply reaches the parser as the body alone |
| SqlExtract.ExtractSql | app/services/search_service.py:26-33 | extraction never fails, and its result is always trimmed |
| SqlExtract.ExtractTakesJsonField | app/services/search_service.py:28-30 | when the reply parses as an object with a string `"sql"`, the result is that string trimmed |
| SqlExtract.ExtractAbsentFieldIsEmpty | app/services/search_service.py:29 | an object without `"sql"` gives `""`, even when the fallback would have found a statement |
| SqlExtract.ExtractFallsBack | app/services/search_service.py:31-33 | a parse failure, a non-object, or a non-string `"sql"` sends the reply to the fallback scan |
| SqlExtract.FencedJsonExtracted | app/services/search_service.py:26-30 | a fenced JSON body with a `"sql"` string gives that string trimmed |
| SqlExtract.FencedJsonExample | app/services/search_service.py:26-30 | a fenced `{"sql": "SELECT 1;"}` gives `SELECT 1;` |
| SqlExtract.FallbackSql | app/services/search_service.py:32-33 | the fallback result is trimmed |
| SqlExtract.FallbackIsShortestSpan | app/services/search_service.py:32-33 | with the first `select\b` at i and the first `;` after it at j, the result is exactly `s[i..j+1]`: the shortest span, untrimmed |
| SqlExtract.FallbackNoSelect | app/services/search_service.py:33 | without any `select\b` the result is `""` |
| SqlExtract.FallbackNoSemicolon | app/services/search_service.py:33 | without a `;` after the first `select\b` the result is `""` |
| SqlExtract.FallbackShape | app/services/search_service.py:32-33 | every fallback result is `""`, or starts with the letters of SELECT and ends in its only semicolon after them |
| SqlExtract.FallbackFindsStatement | app/services/search_service.py:32-33 | prose without `select\b` followed by a statement with one final semicolon gives that statement |
| SqlExtract.FallbackExample | app/services/search_service.py:32-33 | `"Sure! SELECT id FROM t;"` gives `"SELECT id FROM t;"` |
| SqlExtract.GenerateSqlQuery | app/services/search_service.py:11-33 | the call fails exactly when the retrieval or the model fails; otherwise the result is the extraction from the model's trimmed reply to the prompt rendered from the retrieved context and the question, and it is trimmed |
| SqlExtract.GenerateUsesBoundedContext | app/services/search_service.py:13-33 | when the search returns one document, the prompt is rendered from its first `min(len, 1500)` characters, and the call gives the model's failure or the extraction from its trimmed reply |
| SqlNormalize.Unfence | app/services/search_service.py:36-43 | the unfenced text is trimmed; text that does not open a fence is just trimmed |
| SqlNormalize.DropFenceLines | app/services/search_service.py:38-42 | the first line is dropped exactly when it starts with "```"; of the rest, the last line is dropped exactly when it starts with "```"; nothing else is dropped |
| SqlNormalize.UnfenceOfFenced | app/services/search_service.py:37-43 | trimmed text that opens a fence loses its first line and, when it starts with a fence, its last line; the rest is re-joined and trimmed |
| SqlNormalize.NormalizeSql | app/services/search_service.py:35-47 | the result has no leading or trailing whitespace |
| SqlNormalize.NormalizeStartsAtFirstSelect | app/services/search_service.py:44-47 | with a whole-word SELECT in the unfenced text, the result starts at the first one and runs to the end |
| SqlNormalize.NormalizeWithoutSelect | app/services/search_service.py:44-47 | without a whole-word SELECT, the result is the unfenced text unchanged |
| SqlNormalize.NormalizeKeepsSelectStatement | app/services/search_service.py:35-47 | a trimmed statement starting with a whole-word SELECT is its own normal form |
| SqlNormalize.NormalizeIdempotentWhenSelectFound | app/services/search_service.py:35-47 | when a whole-word SELECT is found, normalising twice equals normalising once |
| SqlNormalize.FencedLines | app/services/search_service.py:38 | a fenced statement splits into the opening line, the statement's lines and the closing fence |
| SqlNormalize.DropFenceLinesAround | app/services/search_service.py:39-42 | dropping the fence lines around a statement's lines leaves exactly those lines |
| SqlNormalize.NormalizeUnwrapsFencedStatement | app/services/search_service.py:35-47 | a ```` ```sql ```` fence around a SELECT statement normalises to the statement |
| SqlSafety.NoForbiddenKeyword | app/services/search_service.py:56-58 | the early-return loop answers true exactly when none of the ten keywords occurs in the text |
| SqlSafety.SafeStatement | app/services/search_service.py:53-59 | a statement that passes is at least as long as SELECT |
| SqlSafety.IsSafe | app/services/search_service.py:50-59 | what `is_safe_sql_query` answers: the statement test applied to the normal form, which `IsSafeSqlQuery` computes |
| SqlSafety.IsSafeSqlQuery | app/services/search_service.py:50-59 | the method answers exactly whether the upper-cased, trimmed normal form starts with SELECT and holds no forbidden keyword |
| SqlSafety.UpperKeepsStripped | app/services/search_service.py:53 | upper-casing trimmed text leaves it trimmed, so the second trim changes nothing |
| SqlSafety.ForbiddenKeywordFails | app/services/search_service.py:56-58 | a forbidden keyword anywhere in a trimmed statement, in any letter case, fails the test |
| SqlSafety.ForbiddenKeywordRejected | app/services/search_service.py:52-58 | a forbidden keyword anywhere in the normalised text, in any letter case, makes the query unsafe |
| SqlSafety.SafeStatementStartsWithSelect | app/services/search_service.py:53-55 | a statement that passes starts with the letters of SELECT, in some case |
| SqlSafety.SafeNormalFormStable | app/services/search_service.py:35-52 | when the normal form passes the test, normalising it again changes nothing |
| SqlSafety.NoSelectPrefixRejected | app/services/search_service.py:52-55 | a normalised text not starting with the letters of SELECT is rejected |
| SqlSafety.TimestampColumnHoldsKeyword | app/core/settings.py:22 | a statement naming `created_time` or `last_updated_time` fails the test, since these contain CREATE and UPDATE |
| SqlSafety.RejectsTimestampColumns | app/services/search_service.py:56-58 | any query whose normal form names either timestamp column is rejected |
| SqlLimit.LimitCore | app/services/search_service.py:63 | the trimmed text without trailing semicolons does not end in a semicolon |
| SqlLimit.LimitCoreNonEmpty | app/services/search_service.py:63 | a character that is neither whitespace nor `;` keeps the core non-empty |
| SqlLimit.EnsureLimitClause | app/services/search_service.py:62-66 | the result ends in exactly one semicolon |
| SqlLimit.EnsureLimitKeepsExisting | app/services/search_service.py:64-65 | a core that already has `LIMIT <digits>`, whatever the number, is returned with one `;` |
| SqlLimit.EnsureLimitAppendsDefault | app/services/search_service.py:66 | a core without a limit gets ` LIMIT 20;` appended, and the appended clause is then the result's only `LIMIT <digits>` match |
| SqlLimit.LimitAtBeforeSeam | app/services/search_service.py:64 | a match that starts before a space followed by a non-space, non-digit character lies wholly before that space |
| SqlLimit.LimitOnlyAtSeam | app/services/search_service.py:66 | inside the appended ` LIMIT 20;` a match can start only at its `L` |
| SqlLimit.DefaultLimitTailMatches | app/services/search_service.py:66 | the appended clause is still a match once the semicolon follows it |
| SqlLimit.DefaultLimitMatches | app/services/search_service.py:64-66 | the appended clause is itself a `LIMIT <digits>` match |
| SqlLimit.EnsureLimitHasLimit | app/services/search_service.py:62-66 | for every input, the result before its semicolon carries a `LIMIT <digits>` |
| SqlLimit.EnsureLimitShape | app/services/search_service.py:62-66 | the result is the core plus `;`, or the core plus ` LIMIT 20;` |
| SqlLimit.CoreOfLimited | app/services/search_service.py:62-66 | the core of the result is the result without its semicolon |
| SqlLimit.EnsureLimitIdempotent | app/services/search_service.py:62-66 | applying the clause twice equals applying it once, for every input that is not blank or only semicolons |
| SqlLimit.EnsureLimitBlankNotIdempotent | app/services/search_service.py:62-66 | on the empty input the result is ` LIMIT 20;` and a second pass changes it, so the exclusion is needed |
| SqlExecute.LimitedShape | app/services/search_service.py:75-76 | the submitted text is the limited statement without its semicolon: the core, or the core with ` LIMIT 20` |
| SqlExecute.Limited | app/services/search_service.py:75-76 | the submitted text never ends in a semicolon |
| SqlExecute.LimitedHasLimit | app/services/search_service.py:75-76 | the submitted text carries a limit and does not end in a semicolon |
| SqlExecute.LimitedKeepsSafety | app/services/search_service.py:73-76 | limiting a statement that passes the test yields one that passes it in its own right |
| SqlExecute.GateAsWritten | app/services/search_service.py:70-76 | as written: an empty token gives the missing-JWT note; the once-normalised text is tested after a second normalisation; a failing test gives the rejection note; a passing one submits the limited once-normalised text, which carries a limit, is not empty and does not end in `;` |
| SqlExecute.SafeNormalFormHasCore | app/services/search_service.py:63 | a trimmed text that passes the test is not all semicolons, so its core is not empty |
| SqlExecute.SafeNormalFormSubmittable | app/services/search_service.py:73-76 | a normal form that passes the test limits to a non-empty text with a limit and no final semicolon |
| SqlExecute.Gate | app/services/search_service.py:70-76 | corrected executor: an empty token gives the missing-JWT note; with a token an unsafe query gives the rejection note and a safe one submits the limited normal form |
| SqlExecute.GateRefinesAsWritten | app/services/search_service.py:72-76 | whenever the corrected gate submits, the gate as written makes the same decision |
| SqlExecute.GateSubmitsSafeStatement | app/services/search_service.py:72-76 | a submitted statement is the limited normal form, passes the safety test, carries a limit and does not end in `;` |
| SqlExecute.GatesAgreeWhenSelectFound | app/services/search_service.py:72-73 | when normalisation finds a whole-word SELECT, the decision as written equals the corrected one |
| SqlExecute.Respond | app/services/search_service.py:77-91 | a client that cannot be built raises; an RPC failure gives `[]` and `"Supabase RPC error: "` followed by the error; absent or empty data gives `[]` and the no-records note; non-empty data is returned with the success note |
| SqlExecute.Execute | app/services/search_service.py:69-91 | corrected executor: it raises only for a token, a safe query and a client that cannot be built, and rows come back only for a submission that passes the test, carries a limit and does not end in `;` |
| SqlExecute.ExecuteAsWritten | app/services/search_service.py:69-91 | executor as written: it raises only for a token, a normal form that passes the test and a client that cannot be built, and rows come back only for a statement carrying a limit |
| SqlExecute.ExecuteSqlQuery | app/services/search_service.py:69-91 | the ladder of early returns, rebinding the statement step by step and testing the once-normalised statement, computes the as-written executor's answer |
| SqlExecute.MissingJwtAnswered | app/services/search_service.py:70-71 | an empty token answers `([], "Missing user JWT. Please login first.")` |
| SqlExecute.UnsafeRejected | app/services/search_service.py:73-74 | corrected executor: with a token, an unsafe query answers `([], "SQL rejected by safety check.")` |
| SqlExecute.RejectionIgnoresRpc | app/services/search_service.py:70-74 | corrected executor: a rejected request does not depend on the RPC and returns no rows |
| SqlExecute.SafeStatementSubmitted | app/services/search_service.py:72-91 | corrected executor: with a token and a safe query, the answer is the RPC's reply to the limited normal form, which carries a limit and does not end in `;` |
| SqlExecute.RowsOnlyOnSuccess | app/services/search_service.py:88-91 | corrected executor: rows come back only with a token, a safe query, RPC data and the success note |
| SqlExecute.AsWrittenMissingJwtAnswered | app/services/search_service.py:70-71 | executor as written: an empty token answers `([], "Missing user JWT. Please login first.")` |
| SqlExecute.AsWrittenRejectionIgnoresRpc | app/services/search_service.py:72-74 | executor as written: when the once-normalised text fails the test, any two RPCs give `([], "SQL rejected by safety check.")` |
| SqlExecute.AsWrittenSubmitted | app/services/search_service.py:72-91 | executor as written: when the once-normalised text passes the test, the answer is the RPC's reply to its limited form, which carries a limit, is not empty and does not end in `;` |
| SqlExecute.ExecuteRefinesAsWritten | app/services/search_service.py:69-91 | with no token or a safe query, the corrected executor and the executor as written give the same answer |
| SqlFinding.NormalizeNotIdempotent | app/services/search_service.py:35-47 | on `"```\n```DROP\nSELECTa"`, normalising twice differs from normalising once |
| SqlFinding.AsWrittenGateSubmitsDrop | app/services/search_service.py:72-76 | as written, that input passes the test and sends the RPC a statement that contains DROP and fails the test, while the corrected gate rejects it |
| SqlFinding.ProbeDecisions | app/services/search_service.py:72-76 | for every probe of this shape whose last line passes the test, the two gates decide differently |
| Rag.ContextOf | app/tools/rag.py:69-70 | the context is a prefix of the join whose length is exactly what Python's `[:max_chars]` keeps, for either sign of `max_chars`, and the whole join when it fits |
| Rag.RetrieveContext | app/tools/rag.py:66-70 | retrieval fails exactly when the search fails; otherwise it returns the cut join of the documents returned |
| Rag.ContextOfNoDocuments | app/tools/rag.py:69-70 | no documents give `""` |
| Rag.ContextOfOneDocument | app/tools/rag.py:69-70 | one document gives its own front part |
| Rag.JoinedContextAppend | app/tools/rag.py:69 | documents keep search order and are separated by `"\n\n---\n\n"` |
| Rag.ContextStartsWithFirstDocument | app/tools/rag.py:69-70 | a cut within the first document gives that document's front |
| Rag.PresentHeadings | app/tools/rag.py:24 | the present heading values, at most three, are empty exactly when no level is present |
| Rag.HeadingPath | app/tools/rag.py:24 | no heading gives the empty path, and a single level gives its own heading |
| Rag.HeadingPathAllLevels | app/tools/rag.py:24 | all three levels give `h1 > h2 > h3` |
| Rag.HeadingPathSkipsMissingLevel | app/tools/rag.py:24 | a missing level is skipped, not left empty |
| Rag.HeadingPathIgnoresOtherKeys | app/tools/rag.py:24 | keys other than h1, h2 and h3 play no part |
| Rag.SectionChunks | app/tools/rag.py:25-26 | each piece becomes a chunk, in order, whose only metadata key is the section's heading path |
| Rag.ChunksOfAppend | app/tools/rag.py:22-26 | chunks keep section order |
| Rag.ChunksOf | app/tools/rag.py:22-26 | every chunk of every section has exactly the key `source_heading_path` |
| Rag.EntryOf | app/tools/rag.py:58-61 | the entry keeps the chunk's text, its id is `hash(path + "::" + text)`, its keys are the chunk's plus `path`, the chunk's values win, and `path` is the file's path unless the chunk has its own |
| Rag.SplitMarkdownWithHeaders | app/tools/rag.py:17-27 | the appending loop returns exactly the chunks of all sections, section by section |
| Rag.ChunkEntries | app/tools/rag.py:57-61 | one entry per chunk, in order, each with the path in front of the chunk's metadata and the hashed id |
| Rag.ChunkEntriesWellFormed | app/tools/rag.py:58-61 | each entry's metadata is exactly the path and the heading path, and its id is `hash(path + "::" + text)` |
| Rag.FileEntries | app/tools/rag.py:54-55 | a missing file contributes no entries |
| Rag.IndexEntries | app/tools/rag.py:52-61 | a list of files none of which exists gives no entries |
| Rag.IndexEntriesWellFormed | app/tools/rag.py:52-61 | every entry of the batch is well formed |
| Rag.IndexSkipsMissingFile | app/tools/rag.py:54-55 | a missing file contributes nothing, wherever it stands in the list |
| Rag.BatchOf | app/tools/rag.py:49-61 | the three lists have the same length and hold, position by position, each entry's text, metadata and id |
| Rag.AppendChunks | app/tools/rag.py:57-61 | the inner loop grows the three lists in lockstep by the file's entries |
| Rag.BuildUpdateIndex | app/tools/rag.py:47-63 | the store receives nothing when there are no entries, and otherwise exactly the batch of all entries |
| Router.Health | app/api/router.py:8-10 | the reply is `{"ok": true}` |
| Router.BearerToken | app/api/router.py:20-22 | the token is trimmed; with an exact, case-sensitive `"Bearer "` prefix it is the rest of the header trimmed, and without one it is `""` |
| Router.IsBlank | app/api/router.py:23 | text counts as blank exactly when all its characters are whitespace |
| Router.BearerTokenOf | app/api/router.py:21-22 | `"Bearer " + t` gives `t` trimmed |
| Router.LowerCaseSchemeHasNoToken | app/api/router.py:21 | `"bearer "` yields no token |
| Router.Ask | app/api/router.py:12-29 | the reply keeps the question and the generated SQL unchanged; blank SQL gives `[]` and `"No sql generated"`; a failing executor gives `[]` and `"Execution error: …"`; otherwise the executor's rows and note |
| Router.FailedGenerationAnswered | app/api/router.py:14-19 | a failed generation gives SQL `""` and the default note |
| Router.BlankSqlSkipsExecutor | app/api/router.py:23 | with blank SQL, any two executors give the same reply |
| Router.ExecutorSeesGeneratedSql | app/api/router.py:24-25 | the executor sees exactly the generated SQL and the header's token |
| Router.NoBearerMeansMissingJwt | app/api/router.py:20-25 | with either executor, a header that is not a bearer header gives no rows and the missing-JWT note |
| Router.SafeQueryEndToEnd | app/api/router.py:12-29 | corrected executor: end to end, a safe query with a token reaches the RPC as the limited normal form, while the reply shows the SQL as generated |
| Router.AsWrittenQueryEndToEnd | app/api/router.py:12-29 | executor as written: end to end, a once-normalised query that passes the test, with a token, reaches the RPC as its limited form, which carries a limit; the reply shows the SQL as generated and relays the RPC's answer |
| Router.AskRelaysAnswer | app/api/router.py:23-29 | for non-blank generated SQL, the reply keeps the SQL and relays the executor's rows and note, or `[]` and `"Execution error: "` with the message |

## Left out

- I/O and foreign code are parameters and are not modelled: the language model, the prompt
  template and its rendering, `json.loads`, the Chroma store and its similarity search, the
  Ollama embeddings, the LangChain splitters, sha256, the file system, `str(Path)` and the
  Supabase client and RPC.
- The `_embedding` cache and the construction of the vector store are left out. Both belong to
  the foreign libraries.
- Unicode is not modelled. `strip`, `upper`, `\b` and `\d` are ASCII, and `splitlines` splits on
  `"\n"` only, although Python also splits on `"\r"` and other line breaks.
- Failures of `read_text`, of the splitters, of hashing, of prompt rendering and of `add_texts`
  are not modelled. These collaborators are total parameters, so `build_update_index` always
  reaches the store.
- Floating-point numbers in result rows are not modelled.
- Token scoping is not modelled. The executor only tests the token for emptiness, and the client
  is built with the service-role key.
- `app/core/settings.py` declares no `supabase_service_role_key`, so building the client raises
  outside the handler. The model treats a client that cannot be built as a raised failure
  (`ClientFailed`), which `/ask` turns into an `"Execution error: "` note.
- `app/core/settings.py` also declares no `schema_name` and no `table_name`, which
  `generate_sql_query` reads when it renders the prompt, and no `deepseek_base_url`, which
  `get_chat_model` in `app/services/chat_service.py` reads before that. As configured,
  generation therefore raises before the model is called, and `/ask` answers with SQL `""` and
  `"No sql generated"` (`Router.FailedGenerationAnswered`). The model gives the prompt renderer
  and the model as parameters, so it covers the configuration in which these fields exist.
- Settings are used only as constants. The order in which the allowed columns are rendered into
  the prompt is unspecified.
- The `print` of a generation failure in `ask` is output only and is left out.
- The SQL returned by `/ask` is the generator's text. It is neither normalised nor limited, as
  `Router.Ask` states.
- The fallback pattern `(?is)(select\b.*?;)` has no word boundary before `select`. The model
  follows the code, so `xselect 1;` yields `select 1;`.
- The corrected executor `Execute`, which tests the text it submits, exists only as a function.
  The method `ExecuteSqlQuery` follows the program as written (`ExecuteAsWritten`); see Findings.
- Default arguments are not modelled as defaults. The model passes them as ordinary parameters:
  `build_update_index`'s `DOC_PATHS`, `chunk_size=500` and `chunk_overlap=100`
  (app/tools/rag.py:47), and the empty `authorization` header of `ask` (app/api/router.py:13).
  An absent header therefore reaches `Router.Ask` as "".
- SqlNormalize.NormalizeIdempotentWhenSelectFound: idempotence is stated only when a whole-word
  SELECT is found, because without one it fails (`SqlFinding.NormalizeNotIdempotent`).

## Findings

| source | as written | input that shows it | evidently intended | confidence | as-written member | corrected member |
|---|---|---|---|---|---|---|
| app/services/search_service.py:72-76 | `execute_sql_query` normalises the SQL, then calls `is_safe_sql_query`, which normalises it again (line 52). `normalize_sql` is not idempotent when no whole-word SELECT is found, so the safety test can judge a different text from the one limited and sent to the RPC. | `"```\n```DROP\nSELECTa"`: the text normalised once is `"```DROP\nSELECTa"`. Normalised twice it is `"SELECTa"`, which passes. The RPC receives the statement ```` ```DROP\nSELECTa LIMIT 20 ````, which contains DROP. | the statement submitted passes the safety test itself | not executed | SqlFinding.AsWrittenGateSubmitsDrop | SqlExecute.GateSubmitsSafeStatement |
