# php-db in Dafny

This project models the sequential core of the php-db database-client library:

- SQL string escaping. `MysqliManager::escapeStr` and `escapeForLikeStr` are in module `Escaping`.
- Statement classification by leading keyword, as `parseResults` does it. This is module `Statements`.
- The query bookkeeping of `MysqliManager`, in module `Manager`. A record of the manager's fields is changed by pure step functions:
  - `connect` and `close`;
  - the heartbeat and its reconnect;
  - `flush`, `rowsToArray` and `parseResults`;
  - `query` with its single re-issue after error 2006;
  - `begin`, `commit` and `rollback`.
- `getBestCharset`, in module `Charset`. The two capability checks are passed in as booleans.
- The resumable line-based SQL import, in module `Importer`. It covers both `MysqliManager::tryImportSqlFile` and `PDOSqlFileImporter::tryImport`.
- The HandlerSocket index-handle cache of `HandlerSocketMySql::insert`, together with `escapeWhitespaces`. This is module `IndexCache`.
- The HandlerSocket error-code translation `HandlerSocketError::throwNormalError`, in module `HandlerSocketErrors`. Its message texts are in module `HandlerSocketMessages`.

Module `Wrappers` holds `Option` and `Result`. Module `Chars` holds PHP's `trim` set, PCRE's `\s` set, lower-casing and string concatenation.

The mysqli driver, PDO and the HandlerSocket extension are oracles:
- Each operation receives the driver's answers as a record (`Manager.Driver`, `IndexCache.Channel`) or as a function (`Importer.Outcome`).
- Each operation returns the driver calls it made, so "not called" and "at most twice" can be stated.
- Driver calls on a manager without a client answer null and raise nothing. This is the PHP 7 behaviour that the lazy connect inside `query` relies on.

The import file is one string, and offsets are character indices. One call of `fgets` reads up to and including the next line feed. The checkpoint file is an `Option<nat>`.

Facts about the code that the model makes explicit:
- As written, `connect()` stores the object from `mysqli_init` in `$client` before calling `mysqli_real_connect`. When that call fails and `connect()` throws, the object stays. The connection error then leaves a client object that never connected, whether it came from `connect()` directly, from `heartbeatClient` or from `query`. After that, `connect()` and `heartbeatClient` answer true without connecting, and `query` neither reconnects nor re-issues. The module carries both this `connect()` and a corrected one that leaves no client, and `Manager.Version` selects which one the heartbeat and `query` use. See Findings.
- `heartbeatClient` makes at most one real connection attempt whatever the retry bound. `connect()` either answers true at once, because a client object exists, or it throws.
- `PDOSqlFileImporter::tryImport` deletes the checkpoint file when a statement fails.
- `flush()` returns early when there is no client, before it clears `$result`. See Findings.
- In buffered mode `rowsToArray()` loops until `@mysqli_data_seek` answers `false`. On a live result set it answers false past the last row, and on a freed result it warns and answers false. On anything that is not a result object it answers null under PHP 7, so the loop does not end. See Findings.

## Model

| member | source | states |
|---|---|---|
| Escaping.EscapeWith | src/MysqliManager.php:514-545 | The output is as long as the input plus one per special character. It holds no raw NUL, LF or CR, and every special character except the backslash itself is preceded by a backslash. |
| Escaping.Unescape | src/MysqliManager.php:514-545 | The inverse reading of both escape tables, used as the partner of the escaping. `Escaping.UnescapeEscape` and `Escaping.EscapeUnescape` state that the two are inverse bijections. |
| Escaping.UnescapeEscape | src/MysqliManager.php:514-545 | Undoing the two-character escapes recovers the input exactly. |
| Escaping.EscapeUnescape | src/MysqliManager.php:514-545 | Any text that unescapes to `s` is exactly the escaping of `s`, so escaping and unescaping are inverse bijections. |
| Escaping.EscapeStr | src/MysqliManager.php:514-525 | NUL, LF, CR, backslash and both quotes become their backslash forms. The length grows by their count, no quote is left unescaped, and the input can be recovered. |
| Escaping.EscapeForLikeStr | src/MysqliManager.php:532-545 | `%` and `_` are also escaped. Every `%` and `_` in the output is preceded by a backslash, and the input can be recovered. |
| Escaping.TwoPass | src/MysqliManager.php:499-545 | The LIKE table equals the plain table followed by `addcslashes(…, "%_")`. |
| Escaping.WithoutWildcards | src/MysqliManager.php:514-545 | On text without `%` and `_` both tables give the same output. |
| Escaping.EscapeInjective | src/MysqliManager.php:514-545 | Different strings escape differently. |
| Escaping.AddLikeSlashes | src/MysqliManager.php:503-505 | `addcslashes(s, "%_")`. `Escaping.AddLikeSlashesAppend` and `Escaping.TwoPass` state its properties. |
| Escaping.AddLikeSlashesAppend | src/MysqliManager.php:499-507 | The wildcard replacement works piece by piece over concatenation. |
| Escaping.EscapeForLikeIsTwoPass | src/MysqliManager.php:499-545 | The LIKE escape equals `escapeStr` followed by escaping `%` and `_`. Backslashes added by the first pass are not escaped again. On text without wildcards it equals `escapeStr`. |
| Statements.Classify | src/MysqliManager.php:290-298 | The three keyword tests of `parseResults` in their order. `Statements.ClassifyIsPattern` states the class it gives against the regular expressions. |
| Statements.StartsWithKeywordIsPattern | src/MysqliManager.php:290-302 | The keyword test matches the pattern `^\s*kw\s` case-insensitively, in both directions. |
| Statements.KeywordPosition | src/MysqliManager.php:290-302 | A keyword can only match right after the leading whitespace. |
| Statements.MatchesAnyIsPattern | src/MysqliManager.php:290-302 | A group matches exactly when the pattern of one of its keywords matches. |
| Statements.ClassifyIsPattern | src/MysqliManager.php:290-305 | The class is a schema change iff a create/alter/truncate/drop pattern matches. It is a mutation iff no schema pattern matches but an insert/delete/update/replace pattern does, and insert or replace is the one that sets the insert id. Otherwise it is a read. |
| Statements.GroupsDisjoint | src/MysqliManager.php:290-298 | No statement starts with both a schema keyword and a mutation keyword, so the order of the tests does not matter. |
| Statements.ClassifyIgnoresLeadingSpace | src/MysqliManager.php:290-298 | Leading whitespace does not change the class. |
| Statements.DropSpacesPrefix | src/MysqliManager.php:290-298 | Dropping leading whitespace ignores any whitespace prefix. |
| Chars.Trim | src/PDOSqlFileImporter.php:42-48 | PHP's `trim`, as `ltrim` then `rtrim`. `Chars.TrimLeftShape` and `Chars.TrimRightShape` state what each side removes. |
| Chars.TrimLeftShape | src/PDOSqlFileImporter.php:42 | `ltrim` removes a prefix made only of trimmed characters, and the rest does not start with one. |
| Chars.TrimRightShape | src/PDOSqlFileImporter.php:48 | `rtrim` removes a suffix made only of trimmed characters, and the rest does not end with one. |
| Chars.DropSpaces | src/MysqliManager.php:290-298 | The leading `\s*` run: the result is a suffix of the input, whatever was dropped is whitespace, and the result does not start with whitespace. |
| Chars.ConcatAppend | src/PDOSqlFileImporter.php:46 | Appending a piece appends its text. |
| Chars.ConcatPrepend | src/PDOSqlFileImporter.php:46 | Prepending a piece prepends its text. |
| Manager.ConnectAsWritten | src/MysqliManager.php:133-163 | The code as written. On a present client it answers true with nothing changed or called. Without one it succeeds iff init and real_connect do, and success leaves a live client. A failure after a successful init leaves the unconnected client object. Its calls are a prefix of init, real connect and set-charset, with a real connect iff init succeeded. |
| Manager.ConnectAsWrittenStaysUnconnected | src/MysqliManager.php:133-163 | After one failed `real_connect` the next `connect()` answers true without connecting, and no live client exists. |
| Manager.Connect | src/MysqliManager.php:133-163 | On a present client it answers true with nothing changed. Without one it succeeds iff init and real_connect do. Success leaves a live client. A failure leaves the record unchanged. At most one real connection is attempted. |
| Manager.ConnectIdempotent | src/MysqliManager.php:133-137 | Connecting after a successful connect changes nothing and calls nothing. |
| Manager.ConnectRetriesAfterFailure | src/MysqliManager.php:133-163 | After a failed connect, the next call tries to connect again. It succeeds iff a live client results. |
| Manager.Close | src/MysqliManager.php:223-233 | It answers true iff there was no client or the driver closed the link. Only then is the client dropped, and no call is made without a client. |
| Manager.ConnectBy | src/MysqliManager.php:133-163 | Whichever version runs, a failure only happens without a client and is a connection error. It leaves the unconnected object as written, and nothing with the correction. |
| Manager.ConnectVersionsAgree | src/MysqliManager.php:133-163 | Both versions give the same answer and make the same calls, and agree on the record whenever they succeed. |
| Manager.CloseIdempotent | src/MysqliManager.php:223-233 | Closing a closed manager answers true and calls nothing. |
| Manager.Heartbeat | src/MysqliManager.php:313-341 | A live client that answers the ping gives true with nothing else done. With no retries allowed it gives false without connecting. A client object that never connected fails the ping and, with a retry allowed, still gives true with nothing but the ping. An error is a connection error raised only without a client. It leaves the unconnected object as written, and no client with the correction. Its calls are the ping alone or a prefix of init, real connect and set-charset. |
| Manager.HeartbeatCalls | src/MysqliManager.php:313-341 | The heartbeat sends no statement and makes at most one real connection attempt. |
| Manager.HeartbeatSingleAttempt | src/MysqliManager.php:313-341 | Against an unreachable server, any retry bound leads to exactly one connection attempt, then a connection error. |
| Manager.FlushAsWritten | src/MysqliManager.php:408-430 | The code as written: every bookkeeping field is reset, and the result object is freed iff there is one. |
| Manager.FlushAsWrittenKeepsFreedHandle | src/MysqliManager.php:408-430 | Without a client, the freed result object stays in `$result`, and a second flush frees it again. |
| Manager.Flush | src/MysqliManager.php:408-430 | It leaves `lastQuery` empty, the counters and insert id at 0, no cached rows, STORE mode and no result handle. Client, transaction flag and configuration are untouched. It frees iff there was a result object and drains iff a client is present too. It sends nothing and does not connect. |
| Manager.FlushIdempotent | src/MysqliManager.php:408-430 | A second flush changes nothing and calls nothing. |
| Manager.FlushAgreesWithAsWritten | src/MysqliManager.php:408-430 | The correction differs from the code only in the `$result` field, and only when a result object meets a missing client. |
| Manager.StoreLoopAsWrittenNeverStops | src/MysqliManager.php:392-395 | The buffered loop as written never stops on a handle that is not a result object, whatever the fuel. |
| Manager.StoreLoopAsWrittenOnRowSet | src/MysqliManager.php:392-395 | On a live result set the buffered loop as written stops and collects exactly the remaining rows, in order. |
| Manager.FlushThenRowsToArrayHangs | src/MysqliManager.php:375-430 | After the corrected `flush()` the mode is buffered, nothing is cached and `$result` is null, so `rowsToArray()` as written never returns. After the as-written `flush()` the same holds, unless it kept a freed result object for lack of a client; only then does the loop stop, with no rows. |
| Manager.FetchAll | src/MysqliManager.php:375-401 | Both fetch loops, streamed and buffered seek-by-seek, collect every row of a result set in order and count them, and nothing from any other handle. The buffered loop uses the corrected stopping rule, ending as soon as the seek does not answer true. This differs from the code only on a handle that is not a result object. |
| Manager.RowsToArray | src/MysqliManager.php:375-401 | A non-empty cached row set is returned unchanged with nothing moved. Otherwise the rows of the current result are returned, cached and counted, and none for a handle that is not a live result set. No other field changes. |
| Manager.RowsToArrayAgreesWithLoop | src/MysqliManager.php:375-401 | On a result object, live or freed, the corrected result holds exactly the rows the buffered loop as written collects. |
| Manager.RowsToArrayIdempotent | src/MysqliManager.php:375-401 | Materialising twice gives the same rows and the same record as once. |
| Manager.ParseResults | src/MysqliManager.php:288-305 | Schema changes return the raw handle with nothing changed. Mutations return and record the affected-row count, and only insert or replace record the insert id. Reads return the rows of a result object, none for a freed one, and false for any other handle. The handle, client and last query are untouched. |
| Manager.ParseResultsAfterClose | src/MysqliManager.php:288-305 | After a read, `close()` and the as-written `flush()`, the freed handle is held in buffered mode and the last query is a read. The loop as written stops at once with no rows there, and `parseResults` returns no rows. |
| Manager.Issue | src/MysqliManager.php:256-259 | A truthy handle only comes from a connected client. |
| Manager.Finish | src/MysqliManager.php:271-278 | It succeeds iff the handle is truthy and the error number is 0. On success it returns what `parseResults` returns, and it makes no further calls. |
| Manager.Issued | src/MysqliManager.php:246-268 | The statement and mode are recorded. A raised error is a connection error and only happens without a client. It leaves the unconnected object as written, and no client with the correction. A truthy handle implies a live client. An unconnected client object stays, and no other start produces one without raising. |
| Manager.IssuedOnDeadClient | src/MysqliManager.php:246-260 | On a client object that never connected, the statement goes out once, no heartbeat runs, and no handle or error number comes back. |
| Manager.Reissued | src/MysqliManager.php:260-268 | The calls are the heartbeat's, followed by a second send iff the heartbeat answered true. A raised error leaves the client as `Manager.Heartbeat` says, and an unconnected client object stays. |
| Manager.Query | src/MysqliManager.php:241-279 | A non-string argument raises before anything changes. A success leaves a live client and a truthy handle. A connection error only happens without a client. It leaves the unconnected object as written, and no client with the correction. Only that error produces an unconnected client, and one present before stays. The transaction flag and database are untouched. |
| Manager.SendsOf | src/MysqliManager.php:256-266 | The statements among a list of driver calls, in order. `Manager.SendsOfAppend` and `Manager.NoSends` state how it splits. |
| Manager.SendsOfAppend | src/MysqliManager.php:256-266 | The sends of joined call lists are the sends of each part. |
| Manager.NoSends | src/MysqliManager.php:256-266 | Call lists without sends have none. |
| Manager.IssuedShape | src/MysqliManager.php:246-268 | A query makes the flush's calls and one send. Only after a missing client or error 2006 does it add the heartbeat's calls and a second send. |
| Manager.SendCount | src/MysqliManager.php:256-268 | Counts the sends and connection attempts in call lists shaped like those of `query`. |
| Manager.ReissuedSends | src/MysqliManager.php:260-268 | The recovery branch adds at most one send and at most one connection attempt. |
| Manager.IssuedSends | src/MysqliManager.php:246-268 | The statement is sent once or twice. Twice only without a client or after error 2006, and at most one connection is attempted. |
| Manager.QueryIssuesAtMostTwice | src/MysqliManager.php:241-279 | `query` sends its statement once or twice and nothing else. The second send happens only without a client or after error 2006, and at most one connection is attempted. |
| Manager.QueryOnLiveConnection | src/MysqliManager.php:241-306 | On a live connection with a good answer the statement is sent once. The call returns what its class promises, and the counters move only as `parseResults` says. A read on a freed result gives no rows, and a read answered `true` gives false. |
| Manager.QueryConnectsLazily | src/MysqliManager.php:256-279 | Without a client, one connection is made and the statement is sent twice. The outcome is decided by the second answer. |
| Manager.IssuedConnectsLazily | src/MysqliManager.php:246-268 | Without a client, the first send goes nowhere, the heartbeat connects with one `real_connect`, and the second send's handle and error number are those left on the live client. |
| Manager.QueryTriesToConnect | src/MysqliManager.php:256-268 | Without a client and with init succeeding, `query` attempts a connection, and ends with a live client iff it succeeds. |
| Manager.QueryOnDeadClient | src/MysqliManager.php:256-277 | On a client object that never connected, `query` sends the statement once, pings nothing and does not connect, and raises a query error without an error number. The dead client stays. |
| Manager.QueryAsWrittenNeverReconnects | src/MysqliManager.php:133-163 | As written, a `query` whose connection fails raises a connection error and leaves the unconnected object. The next `query` raises a query error without trying to connect, whatever the server answers. |
| Manager.QueryCorrectedRetries | src/MysqliManager.php:241-279 | With the correction the failed `query` leaves no client. The next one attempts a connection whenever init succeeds, and is connected when the server is back. |
| Manager.QueryFailsFast | src/MysqliManager.php:256-277 | An error other than 2006 raises at once with its number, without ping, reconnect or re-send. |
| Manager.Begin | src/MysqliManager.php:436-450 | Autocommit is switched off and a transaction is started. The flag is set whatever the driver answers. |
| Manager.Commit | src/MysqliManager.php:456-463 | It commits and then restores autocommit. The flag is cleared whatever the driver answers. |
| Manager.Rollback | src/MysqliManager.php:469-476 | It rolls back and then restores autocommit. The flag is cleared whatever the driver answers. |
| Manager.TransactionBracket | src/MysqliManager.php:436-476 | Begin then commit or rollback restores the record with the flag cleared. Autocommit is off first and on last. |
| Charset.ReplaceAbsent | src/MysqliManager.php:746 | `str_replace` leaves a string without the pattern unchanged. |
| Charset.ReplaceAll | src/MysqliManager.php:746-753 | `str_replace`, left to right without overlap. `Charset.ReplaceAbsent` states that it leaves a string without the pattern alone. |
| Charset.BestCharset | src/MysqliManager.php:736-761 | Without a client the request is returned as it is. Otherwise `utf8` and `utf8mb4` become whichever the server supports, and other charsets are kept. For other charsets, the collation changes only by the `unicode_520` upgrade. |
| Charset.DefaultCollation | src/MysqliManager.php:748-758 | With `utf8mb4`, a missing or general collation becomes the best available unicode collation. |
| Charset.FallbackRenamesCollation | src/MysqliManager.php:741-759 | Without `utf8mb4` support, a `utf8mb4` request becomes `utf8` with every `utf8mb4_` in any collation renamed `utf8_`. A `utf8` request keeps its collation. Nothing else changes except by the 520 rule. |
| Charset.UpgradeRenamesCollation | src/MysqliManager.php:741-759 | With `utf8mb4` support, a `utf8` or `utf8mb4` request with any collation other than an empty or the general one becomes `utf8mb4`, with every `utf8_` renamed `utf8mb4_`. Nothing else changes except by the 520 rule. |
| Charset.UpgradeKeepsMb4Collation | src/MysqliManager.php:748-759 | A collation without `utf8_`, such as a `utf8mb4_` one, survives the upgrade unchanged apart from the 520 rule. |
| Charset.FallbackExample | src/MysqliManager.php:744-747 | `utf8mb4_bin` falls back to `utf8_bin`. |
| Charset.UpgradeExample | src/MysqliManager.php:741-754 | `utf8_bin` is upgraded to `utf8mb4_bin`. |
| Importer.LineEnd | src/PDOSqlFileImporter.php:40 | One `fgets` reads to and including the next line feed, or to the end of the file. |
| Importer.Lines | src/PDOSqlFileImporter.php:40 | The lines successive `fgets` calls read from an offset. `Importer.LinesStep`, `Importer.LinesCover` and `Importer.LinesOrdered` state what they are. |
| Importer.LinesStep | src/PDOSqlFileImporter.php:40 | The lines from an offset are the next line followed by the lines after it. |
| Importer.LinesCover | src/PDOSqlFileImporter.php:40 | The lines read from an offset concatenate back to the rest of the file. |
| Importer.LinesOrdered | src/PDOSqlFileImporter.php:40 | Line ends strictly increase. Lines are non-empty and hold a line feed only at their end. |
| Importer.Skipped | src/PDOSqlFileImporter.php:42 | A line the import passes over: one starting with `--`, or blank once trimmed. `Importer.CommentsStartTheLine` and `Importer.OnlySkippedLines` state its consequences. |
| Importer.Terminates | src/PDOSqlFileImporter.php:48 | A line whose trimmed text ends with `;`. |
| Importer.Group | src/PDOSqlFileImporter.php:40-48 | Accumulates kept lines and closes a statement at each terminating line. `Importer.GroupKeepsText` and `Importer.GroupEnds` state what it produces. |
| Importer.Statements | src/PDOSqlFileImporter.php:32-48 | The statements run from an offset. `Importer.StatementEndsIncrease` and `Importer.ResumeFromCheckpoint` state how they resume. |
| Importer.GroupKeepsText | src/PDOSqlFileImporter.php:42-48 | Statement texts plus the trailing unterminated text are exactly the kept lines in order. Nothing is lost, duplicated or reordered. |
| Importer.GroupEnds | src/PDOSqlFileImporter.php:46-48 | There is one statement per terminating kept line, ending where that line ends. |
| Importer.TerminatorsOrdered | src/PDOSqlFileImporter.php:48 | Terminating lines keep the order of the file. |
| Importer.StatementEndsIncrease | src/PDOSqlFileImporter.php:80-82 | Statement ends, the successive checkpoints, lie after the start and strictly increase. |
| Importer.ResumeAt | src/PDOSqlFileImporter.php:32-35 | Reading from a statement's end yields exactly the statements after it. |
| Importer.ResumeFromCheckpoint | src/PDOSqlFileImporter.php:32-35 | Resuming from the checkpoint written after statement k runs exactly the statements after k. None is run twice. |
| Importer.OnlySkippedLines | src/PDOSqlFileImporter.php:42-44 | Comment and blank lines contribute nothing. |
| Importer.CommentsStartTheLine | src/PDOSqlFileImporter.php:42-48 | A line starting with `--` is skipped, an indented `--` line is not, and an indented `--;` terminates a statement. |
| Importer.FirstFailure | src/PDOSqlFileImporter.php:53-75 | Every statement before the index succeeds, and the statement at the index fails. |
| Importer.FirstFailureIs | src/PDOSqlFileImporter.php:53-75 | That index is the unique one with this property. |
| Importer.RunStatements | src/PDOSqlFileImporter.php:38-84 | The loop runs the statements up to the first failure. It counts them, writes each one's end as the checkpoint, and reports the failing statement iff there is one. |
| Importer.TryImportMysqli | src/MysqliManager.php:800-861 | A missing file gives fail with 0 queries and touches nothing. A failing query propagates with the checkpoint at the last success, or unchanged, and the client open. Otherwise it reports success with the count, deletes the checkpoint and closes the client. |
| Importer.MysqliRetryResumes | src/MysqliManager.php:812-837 | A rerun after a raised query starts with the failed statement and repeats nothing before it. |
| Importer.TryImportPdo | src/PDOSqlFileImporter.php:13-100 | A missing file gives fail with 0 queries and touches nothing. Otherwise the checkpoint is deleted. A failure reports the earlier successes and the message, and also writes the message with a line feed to the error file. A full run reports success with the count. |
| Importer.FailureDetailsNameStatement | src/PDOSqlFileImporter.php:54-68 | The failure message names the statement, and its lead tells a false return from a thrown exception. |
| HandlerSocketErrors.CaseIndex | src/HandlerSocketError.php:15-60 | Finds the first switch group listing the code, or proves no group lists it. |
| HandlerSocketErrors.CasesDisjoint | src/HandlerSocketError.php:15-60 | No code is listed in two groups. |
| HandlerSocketErrors.MessageFor | src/HandlerSocketError.php:15-71 | The message the switch assigns to a code. `HandlerSocketErrors.ListedCode`, `HandlerSocketErrors.UnlistedCode` and `HandlerSocketErrors.SameMessage` state which. |
| HandlerSocketErrors.NormalError | src/HandlerSocketError.php:13-73 | `[code] message`. `HandlerSocketErrors.NormalErrorRoundTrip` and `HandlerSocketErrors.NormalErrorInjective` state that it loses nothing. |
| HandlerSocketErrors.ListedCode | src/HandlerSocketError.php:15-60 | Every listed code gets its group's message. |
| HandlerSocketErrors.SharedMessages | src/HandlerSocketError.php:16-50 | cmd/syntax/notimpl, authtype/unauth, tblnum/stmtnum, lock_tables/modop and kpnum/klen each share their group's message. |
| HandlerSocketErrors.UnlistedCode | src/HandlerSocketError.php:64-71 | An unlisted numeric code maps to the wrong-data message, and any other unlisted code to "Unknown error". |
| HandlerSocketErrors.ListedCodesAreNotNumeric | src/HandlerSocketError.php:15-67 | No listed code is numeric, so the default branch never competes with a group. |
| HandlerSocketErrors.MessagesDistinct | src/HandlerSocketError.php:15-60 | The groups' messages are pairwise different. |
| HandlerSocketErrors.FallbacksDistinct | src/HandlerSocketError.php:64-71 | The two fallback messages differ from each other and from every group's. |
| HandlerSocketErrors.SameMessage | src/HandlerSocketError.php:15-71 | Two codes share a message iff one group lists both, or both are unlisted and both or neither are numeric. |
| HandlerSocketErrors.MessagesHaveNoBracket | src/HandlerSocketError.php:15-71 | No message contains `]`. |
| HandlerSocketMessages.MessageConstantsHaveNoBracket | src/HandlerSocketError.php:15-71 | None of the fifteen message texts contains `]`. |
| HandlerSocketErrors.CaseMessageHasNoBracket | src/HandlerSocketError.php:15-60 | No group message contains `]`. |
| HandlerSocketErrors.LastIndexOf | src/HandlerSocketError.php:73 | Finds the last occurrence of a character, or proves there is none. |
| HandlerSocketErrors.SplitBracketed | src/HandlerSocketError.php:73 | `[code] msg` splits back into code and message when the message has no `]`. |
| HandlerSocketErrors.NormalErrorRoundTrip | src/HandlerSocketError.php:13-73 | The code and its message can be read back from the normalised error, so the function is total and its output shape is fixed. |
| HandlerSocketErrors.NormalErrorInjective | src/HandlerSocketError.php:13-73 | Different codes give different normalised errors. |
| IndexCache.StripWhitespace | src/HandlerSocketMySql.php:112-115 | The output contains no whitespace and is no longer than the input. |
| IndexCache.StripKeepsPlainText | src/HandlerSocketMySql.php:112-115 | A string without whitespace is unchanged. |
| IndexCache.StripIdempotent | src/HandlerSocketMySql.php:112-115 | Stripping twice is stripping once. |
| IndexCache.StripAppend | src/HandlerSocketMySql.php:112-115 | Stripping distributes over concatenation. |
| IndexCache.StripIgnoresInsertedSpace | src/HandlerSocketMySql.php:112-115 | Whitespace inserted anywhere disappears. |
| IndexCache.KeyAsWrittenCollides | src/HandlerSocketMySql.php:88-91 | The as-written key of table `user` with columns `sid` equals that of `users` with `id`. |
| IndexCache.KeyInjective | src/HandlerSocketMySql.php:88-91 | The corrected keys are equal iff the tables are equal and the stripped columns are equal. |
| IndexCache.Execute | src/HandlerSocketMySql.php:99-105 | The insert answers true iff `executeInsert` succeeded or its error code is ignored. Otherwise it raises. It changes nothing. |
| IndexCache.InsertWithKey | src/HandlerSocketMySql.php:79-106 | For any cache key: it answers true or raises. The writer is connected iff none was present, and stays absent only if that connection failed. Other keys' entries never change, a key holding an id keeps it, and once the writer is up the key is cached. |
| IndexCache.InsertAsWritten | src/HandlerSocketMySql.php:79-106 | The code as written, caching under table and columns run together. It answers true or raises, and connects the writer as `IndexCache.InsertWithKey` says. |
| IndexCache.Insert | src/HandlerSocketMySql.php:79-106 | It answers true or raises. The writer is connected iff none was present, and stays absent only if that connection failed. It caches under the table and the stripped columns kept apart; `IndexCache.KeyInjective` and `IndexCache.InsertOpensPerTable` state what that separation gives. |
| IndexCache.InsertAsWrittenUsesWrongIndex | src/HandlerSocketMySql.php:79-106 | As written, an insert into `users` (`id`) after one into `user` (`sid`) runs on the other table's index without opening its own. |
| IndexCache.InsertOpensPerTable | src/HandlerSocketMySql.php:79-106 | With the corrected key, each table opens its own index, with ids 1 then 2. |
| IndexCache.RecordKeepsValid | src/HandlerSocketMySql.php:88-92 | Recording a new key under the next id keeps the ids exactly 1 to the new `lastOpenIndex`, one per key. |
| IndexCache.InsertWithKeyKeepsValid | src/HandlerSocketMySql.php:88-92 | With any cache key, ids stay exactly 1 to `lastOpenIndex`, one per key, never reused. |
| IndexCache.InsertKeepsValid | src/HandlerSocketMySql.php:88-92 | With the separated key, ids stay exactly 1 to `lastOpenIndex`, one per key, never reused. |
| IndexCache.InsertAsWrittenKeepsValid | src/HandlerSocketMySql.php:88-92 | With the as-written key too, ids stay exactly 1 to `lastOpenIndex`, one per key. Colliding tables share an id, they do not corrupt the cache. |
| IndexCache.CacheHitSkipsOpen | src/HandlerSocketMySql.php:88-99 | For any cache key, on a hit no index is opened, the cache is unchanged, and the insert runs on the cached id. |
| IndexCache.CacheMissRecordsFirst | src/HandlerSocketMySql.php:89-96 | For any cache key, on a miss the next id is recorded before opening. A failed open raises without inserting. |
| IndexCache.FailedOpenStaysCached | src/HandlerSocketMySql.php:89-99 | For any cache key, after a failed open the same key skips opening and insert on the recorded id. |
| IndexCache.WhitespaceInsensitive | src/HandlerSocketMySql.php:82-88 | Column lists that differ only in whitespace behave identically, with the as-written key and with the separated one. |
| IndexCache.IgnoredErrors | src/HandlerSocketMySql.php:99-105 | For any cache key, a failed insert is swallowed iff its code is ignored. Otherwise it raises with the normalised error. |

## Left out

- Real file I/O (`fopen`, `fgets`, `fseek`, `ftell`, `file_put_contents`, `unlink`): the file is a string and the checkpoint a value. The 1024000-byte line cap of `fgets` is not modelled.
- The `partly` branch of both importers: the model has no read errors, and the percentage in that branch is float rounding.
- `PDO::prepare` failing: the executor is a function of the statement text that succeeds, returns false or throws. The `var_export` text of `errorInfo()` is one string.
- The mysqli query oracle in `Importer.TryImportMysqli` is a yes/no per statement. Its combination with `Manager.Query` is not modelled.
- `PHP_EOL` is modelled as a line feed.
- `Escaping.EscapeForLikeIsTwoPass`: with a client, `escapeForLike` calls `mysqli_real_escape_string`, which is taken to be `escapeStr`. The driver also escapes Ctrl-Z and depends on the connection's character set.
- PHP's loose `==` in `switch` and `in_array`: codes are compared as strings.
- `HandlerSocketErrors.UnlistedCode`: `is_numeric` is modelled as an optional sign followed by digits with at most one decimal point. Exponents, leading whitespace and hexadecimal forms are not accepted.
- Timing and debug side effects: `sleep`, `error_reporting`, debug mode, `queryBenchmark`.
- Date helpers `dateToFormat` and `dateToRfc3339`: they depend on `strtotime` and `date`.
- `checkSupport`, `getDbVersion`, `getPhpDefaults`, `getColumnsInfo`, `getHostInfo`, `getCharacterSet`, `getConnectionId`: version and introspection calls. `checkSupport`'s two answers are inputs of `Charset.BestCharset`.
- The static singletons `getInstance` and `HandlerSocketMySql::selectStorage`: global state outside the modelled operations.
- `selectDb`, `setRowFetchMode`, `setConnectTries`, `seek`, `escapeArray` and the getters: thin driver wrappers.
- src/HandlerSocketInterface.php is not part of this model: it declares signatures only.
- `begin()` on a PHP without `mysqli_begin_transaction`, which issues `START TRANSACTION` through `query`.
- `Charset.BestCharset`: its ensures pin the charset fully, and the collation only for charsets other than `utf8`/`utf8mb4`. The collation of `utf8` and `utf8mb4` requests is stated by the lemmas after it.
- The contents of the rows and the fetch mode shaping them: a row is an opaque sequence of fields.
- PHP 8, where driver calls on a non-object raise `TypeError` instead of answering null: the model follows PHP 7.
- `mysqli_query` and `mysqli_errno` on a client object that never connected are taken to answer null, as on a missing client.
- `Manager.Seek`: `@mysqli_data_seek` on a freed result is taken to answer false after its "Couldn't fetch mysqli_result" warning, as ext/mysqli does under PHP 7; the repository's own code does not show this answer.
- `Manager.StoreLoopAsWritten`: the endless loop is cut off by a fuel bound, and `None` stands for not stopping within it.
- Concurrency: there is none in the library, and races on a shared checkpoint file are out of scope.

## Findings

| source | as written | input that shows it | evidently intended | confidence | as-written member | corrected member |
|---|---|---|---|---|---|---|
| src/MysqliManager.php:133-163 | `$client` is set from `mysqli_init()` before `mysqli_real_connect`, and is not reset when that call fails and the method throws | `connect()` against an unreachable server, then `connect()` again | a failed connection leaves no client, so the next call tries again | high, not executed | Manager.ConnectAsWrittenStaysUnconnected | Manager.Connect |
| src/MysqliManager.php:256-268 | through `heartbeatClient`, the same failure inside `query` leaves the unconnected object, which later queries neither reconnect nor re-issue on | `query()` while the server is unreachable, then `query()` after it is back | the next `query` connects again | high, not executed | Manager.QueryAsWrittenNeverReconnects | Manager.QueryCorrectedRetries |
| src/MysqliManager.php:408-430 | with a result object but no client, `flush()` returns after `mysqli_free_result` and before `$this->result = null` | a result set read, then `close()`, then `flush()` twice | `flush` always drops the result handle | medium, not executed | Manager.FlushAsWrittenKeepsFreedHandle | Manager.Flush |
| src/HandlerSocketMySql.php:88-91 | the cache key is the table name and the column list joined without a separator | `insert("user", "sid", …)` then `insert("users", "id", …)` | one index per table and column list | high, not executed | IndexCache.InsertAsWrittenUsesWrongIndex | IndexCache.Insert |
| src/MysqliManager.php:392-406 | the buffered loop runs while `@mysqli_data_seek` does not answer `false`, and under PHP 7 that call answers null on a handle that is not a result object | `flush()` then `rowsToArray()` | no rows when there is no result set, as in streamed mode | medium, not executed | Manager.FlushThenRowsToArrayHangs | Manager.RowsToArray |
