# Verified model of pg-retest's core

pg-retest captures PostgreSQL traffic through a proxy, turns it into a workload and replays it. This
project models the parts of it where correctness depends on many steps at once, and proves what they keep:

- the two relay loops of a proxied connection, which share a queue of RETURNING flags, row buffers and a
  suppress flag, as a step system over every interleaving of their critical sections (`Relay`, `RelayRuns`,
  `RelayRaces`), and what answers leave behind (`RelayAnswers`);
- the in-memory collector and the batched staging collector (`CaptureEvents`, `Collector`, `Staging`), and the
  command loop that starts and stops captures (`Control`), joined to the relay runs of several connections
  (`Profiles`);
- parsers and printers between PostgreSQL's binary formats and SQL text: placeholders (`Placeholders`), dates
  and times (`Calendar`), numerics (`Numeric`), array literals (`ArrayLiteral`), IPv6 addresses (`Ipv6`),
  message frames and error responses (`Wire`), Bind messages (`Bind`), parameter lines of the CSV log
  (`Parameters`);
- transaction numbering and the failed-transaction logic of replay (`Replay`), and the duplication of sessions for a
  heavier replay (`Scaling`);
- accounting under interleaving: the connection pool (`Pool`) and the per-address limit (`Listener`);
- the foreign-key ordering of the two demo data generators and the foreign-key values of the first
  (`ForeignKeys`, `GeneratedKeys`).

`Wrappers`, `Bytes`, `Text` and `SqlString` hold shared types, big-endian integers, digit strings and SQL string
constants. Loops and objects of the source are methods and classes here; each is proved equal to a function of its
inputs or of its old state, and the theorems say what that function means in terms of events, messages, bytes, texts
and configuration alone. Where a claim one would like to make is false
of the code, the project states the exact condition under which it holds:

- a complete run with RETURNING injection is captured, shown and cleaned up correctly exactly if no step of an answer
  that matters overtakes the bookkeeping of its query (`RelayRaces.FaithfulIffTimely`), with a run that goes wrong
  (`RelayRaces.OvertakenRun`);
- the shared state is clean after an answer exactly if the answer completes the query
  (`RelayAnswers.CleanIffCompleted`); an empty query shifts the queue (`RelayAnswers.EmptyQueryShiftsTheQueue`);
- a session's staged queries are the in-memory ones, responses included, exactly if no flush separates RETURNING rows
  from their query (`Staging.StagingExactIffNoFlushBetween`); the row that fills a batch always loses them
  (`Staging.FullBatchLosesReturning`);
- one-by-one placeholder replacement is the simultaneous substitution exactly for safe inputs
  (`Placeholders.InliningExactIffSafe`);
- a numeric is printed exactly unless its first base-10000 digit is a nonzero one below the decimal point
  (`Numeric.NumericExactIff`), which src/proxy/pg_binary.rs:441-449 prints once more as the integer part: 0.5 comes out
  as 5000.5 (`Numeric.HalfIsWrong`);
- dates and timestamps are read back exactly from year one to the server's last year (`Calendar.DateReadsBack`,
  `Calendar.TimestampReadsBack`), and the infinities are not (`Calendar.InfinitiesAreLost`);
- the server takes the list of values from an array's SQL constant exactly if no value has a single quote
  (`ArrayLiteral.ArrayConstantIff`); the list of "it's" fails (`ArrayLiteral.PossessiveFails`);
- framing is transparent exactly if no type byte is zero (`Wire.FramesWriteBack`), and a Bind message is extracted
  exactly if its counts fit into 15 bits (`Bind.BindRoundTrip`);
- no server behaviour makes a replay send a statement into a failed transaction exactly if the mode drops writes or no
  statement that the replay would not roll back stands, unfinished, in an open transaction of the captured session
  (`Replay.NeverIntoFailedIff`, `Replay.RefusedControlRun`);
- an idle entry of the address map is always about to be removed exactly if no rejection ends after the last connection
  (`Listener.CleanIffPrompt`);
- scaled sessions have different ids exactly if no two ids differ by a copy number times the number of sessions
  (`Scaling.ScaledDistinctIff`, `Scaling.CopiesCollide`);
- staged rows are read back in the order of completion exactly if start offsets do not go back (`Control.ReadOrderIff`);
- a written profile holds what the exchanges of all connections returned exactly if no flush came between a completion
  and its rows (`Profiles.ProfileHoldsTheExchanges`);
- a table order with parents first is found exactly if there is no circle of references (`ForeignKeys.Search.Sort`), and
  a generated foreign key can miss exactly in the cases of `GeneratedKeys.KeyMissesIff`.

## Model

| member | source | states |
|---|---|---|
| Collector.RunCollector | src/proxy/capture.rs:70-192 | The event loop returns exactly the sessions that have a completed query, with the user, database and queries of the specification; where sessions are announced first these are the announced user and database (both "unknown" without an announcement), and per query the text, offset, duration, error and table of returned rows read off the events, NULL written as "NULL" |
| Collector.PairsAreTheMatches | src/proxy/capture.rs:92-150 | The pairs recorded for a session are exactly the starts and completions with no other start or completion of the session in between, in order, each once |
| Collector.CollectorCapturesMatches | src/proxy/capture.rs:75-182 | For every interleaved stream in which sessions are announced first, the i-th captured query has the text, offset, duration and error of the i-th pair and the table of the last RETURNING rows before the next completion: one response row per row, the shorter of columns and values, each column name with the value's text or "NULL" |
| Collector.SessionsAreIndependent | src/proxy/capture.rs:70-192 | What is captured for a session is a function of that session's own events, however the streams are interleaved |
| Staging.SetLastResponse | src/proxy/capture.rs:402-425 | The reverse search sets the response of the most recent row of the session in the batch and changes no other row |
| Staging.RunStagingCollector | src/proxy/capture.rs:272-440 | The loop over events and flush timeouts inserts, after the rows already there, exactly the rows of the specification, including the last batch at channel close; each carries the capture's id and the user and database that its session announced, or "unknown" for both |
| Staging.StagingRefinesCollector | src/proxy/capture.rs:272-440 | For every event stream and every flush schedule the staged rows of a session are the in-memory queries; only responses at lost positions may differ |
| Staging.RowsAreAnnounced | src/proxy/capture.rs:309-390 | For every schedule in which sessions are announced first, each staged row has the capture's id and the announced user and database of its session, or "unknown" for both if it was never announced |
| Staging.FlushIffHundred | src/proxy/capture.rs:283-437 | The table is written by every timeout and by the recording that makes the batch a hundred rows, and by nothing else before the channel closes; otherwise the batch grows by the recorded query |
| Staging.LostIffFlushedBetween | src/proxy/capture.rs:298-307 | RETURNING rows are lost if and only if a flush, by timeout or by a full batch, came between the completion and the rows |
| Staging.FullBatchLosesReturning | src/proxy/capture.rs:432-437 | The query that fills the batch loses its RETURNING rows even if they follow at once |
| Staging.StagingExactIffNoFlushBetween | src/proxy/capture.rs:272-440 | A session's staged queries equal the in-memory ones, responses included, if and only if, for each RETURNING event and the last completion recorded before it, no timeout and no full batch wrote the table in between |
| Relay.Connection.RelayQuery | src/proxy/connection.rs:667-816 | One simple query changes the shared state as the uninterrupted micro-steps do, and outright: which text is sent, which flag is queued and whether the suppress flag goes up, by implicit capture, the currval or lastval test, which comes first, injection, stealth and RETURNING in the text; the original text is announced |
| Relay.Connection.RelayReply | src/proxy/connection.rs:855-1003 | One server message changes the queue, the column and row buffers, the suppress flag, the events and the client's stream as the uninterrupted critical sections of the server loop do |
| Relay.ReplyInSteps | src/proxy/connection.rs:855-1003 | Taking a message section by section (queue and buffers, suppress flag, event, forwarding) without interference is handling it at once, from whatever section on |
| RelayAnswers.ExchangeByKind | src/proxy/connection.rs:672-712 | For every exchange of every complete timely run, whatever the answer: a currval or lastval query is sent as it is with rows expected even if RETURNING could be injected; an injected one is sent rewritten with rows expected, and hidden in stealth mode; any other is sent as it is with rows expected if it has RETURNING, and without implicit capture every query is of that kind |
| RelayAnswers.PlainExchange | src/proxy/connection.rs:667-1003 | The same end to end for an answer of a row description, rows and a completion or an error: the text that reaches the server, the messages that reach the client, and the captured error and cells, within 20 columns and 100 rows |
| RelayRuns.TimelyRunsAreFaithful | src/proxy/connection.rs:667-1003 | At every point of every timely run the client has received exactly the server's messages minus row data of hidden queries, and the collector holds per completed exchange its own text, error and first 100 rows; the state is clean whenever an answer has been relayed |
| RelayRuns.RelayAll | src/proxy/connection.rs:821-1006 | Any list of complete request-response exchanges run through the two loops ends with a clean state and the correct client stream and capture |
| RelayRuns.RelayExchange | src/proxy/connection.rs:821-1006 | One exchange extends the client stream, the server stream and the capture by exactly its own part |
| RelayRaces.FaithfulIffTimely | src/proxy/connection.rs:667-1003 | With and without stealth: in a complete run of critical sections the client's stream, the capture and the shared state are right after every exchange if and only if no section of an answer to an injected query comes before the bookkeeping it relies on: a row description that leads to rows before the flag is queued, hidden row data or an error's flag before the suppress flag is raised, or the closing event before the opening one |
| RelayRaces.PrematureSpoils | src/proxy/connection.rs:680-699 | The first section that comes too early leaves a visible deviation, an unrecorded query, a stale flag or lost rows |
| RelayRaces.SpoiltForGood | src/proxy/connection.rs:667-1003 | No continuation of the exchange repairs that |
| RelayRaces.OvertakenRun | src/proxy/connection.rs:680-699 | A complete run of one INSERT whose answer overtakes the bookkeeping: the client is shown a row description, and the returned row is not captured |
| RelayRaces.OneRowExpected | src/proxy/connection.rs:855-1003 | What that exchange should have given: only the completion shown, and the row captured |
| RelayAnswers.CleanIffCompleted | src/proxy/connection.rs:855-1003 | From a clean state, a query and its answer leave a clean state if and only if the answer has a CommandComplete or an ErrorResponse |
| RelayAnswers.EmptyQueryShiftsTheQueue | src/proxy/connection.rs:855-1003 | After an empty query, a RETURNING statement loses its row and the ordinary query after it is captured with rows |
| RelayAnswers.PlainAnswerResponse | src/proxy/connection.rs:870-930 | A query answered by n rows is captured with the table of its own first 100 rows if and only if rows are expected of it, it completes, n is positive and the result has 1 to 20 columns; otherwise with none, and an error with its message |
| Control.ManagedProxy.StartCapture | src/proxy/mod.rs:1004-1034 | Succeeds if and only if no capture is active, and then opens a new window; otherwise it reports that a capture is active; id, collector, channel and flag stay consistent |
| Control.ManagedProxy.StopCapture | src/proxy/mod.rs:1035-1103 | Succeeds if and only if a capture is active, closes the window and writes and returns the profile of its staged rows under its id; no rows stay behind |
| Control.ManagedProxy.ForwardEvent | src/proxy/mod.rs:969-977 | An event reaches the active collector's channel, or is dropped if there is none |
| Control.ManagedProxy.ExpireFlushInterval | src/proxy/capture.rs:298-307 | A flush timeout reaches the active collector only |
| Control.CapturesAreIsolated | src/proxy/mod.rs:969-1104 | In every run each written profile is the staging of exactly the events forwarded between its Start, the first after the Stop before, and its Stop; every Stop that ends a capture has written one; the windows of different profiles are disjoint, and the flag is up exactly while nothing is captured |
| Control.ReadOrderIff | src/proxy/staging.rs:107-137 | Rows read ordered by timestamp_us, which is the start offset, are all the rows, ascending, and leave a session's queries in insertion order if and only if its start offsets do not go back |
| Control.ProfileHoldsItsQueries | src/proxy/mod.rs:969-1104 | Each profile holds, per session and in the order of completion, exactly the queries whose start and matching completion were both forwarded inside its window, with text, start offset, duration and error, under the capture's id and the user and database that the session announced in the window, provided the clock that stamps the session's query starts does not go back; their responses are the tables of the returned rows if and only if no flush came between a completion and its rows, where no query is answered twice |
| Profiles.ProfileHoldsTheExchanges | src/proxy/connection.rs:667-1003 | End to end: for several connections with timely runs, their events interleaved in any way inside one capture window, the written profile holds for each connection, under its user and database, one query per exchange with its text and error in order, and also exactly the rows each exchange returned if and only if no flush came between a completion and its rows |
| Placeholders.FormatBindParams | src/proxy/protocol.rs:644-667 | One literal per parameter, and what the server reads there: no value if and only if the parameter is NULL, the text of a decodable text parameter, "<binary n bytes>" for one that cannot be decoded, and otherwise the type decoder's literal; none begins with a dollar sign or a digit |
| Placeholders.TextLiteralReads | src/proxy/protocol.rs:657-659 | The literal of a text parameter is read by the server as exactly that text, whatever quotes it has |
| Placeholders.InlineBindParams | src/proxy/protocol.rs:673-681 | The loop is the whole-string replacement of the placeholders from the highest number down |
| Placeholders.InliningExactIffSafe | src/proxy/protocol.rs:673-681 | That equals the one-pass simultaneous substitution if and only if no parameter number is a proper prefix of a run that is no parameter, and no used value has a lower placeholder in it |
| Placeholders.DollarFreeIsSafe | src/proxy/protocol.rs:673-681 | Templates that use only their parameters with values free of dollar signs are safe |
| Placeholders.InsertedTextIsScannedAgain | src/proxy/protocol.rs:676-679 | A bound text that looks like a lower placeholder is itself replaced |
| Calendar.CivilIsExact | src/proxy/pg_binary.rs:337-349 | For every integer the result is a valid Gregorian date whose day count is that integer |
| Calendar.DaysAreExact | src/proxy/pg_binary.rs:337-349 | For every Gregorian date, converting its day count gives the date back |
| Calendar.CivilSteps | src/proxy/pg_binary.rs:337-349 | The next integer is the next calendar day, by month lengths and the 4/100/400 rule |
| Calendar.EpochIsMillennium | src/proxy/pg_binary.rs:330-332 | The shift of 730425 days is the day number of 2000-01-01 |
| Calendar.DateReadsBack | src/proxy/pg_binary.rs:329-335 | A printed date is read by the server as the same day if and only if it lies between 0001-01-01 and 5874897-12-31 |
| Calendar.TimeReadsBack | src/proxy/pg_binary.rs:351-366 | A printed time of day reads back as the same microsecond |
| Calendar.SplitMicros | src/proxy/pg_binary.rs:368-377 | For every 64-bit count the cast of the day number to 32 bits loses nothing, the time of day is never negative, and the two parts recompose |
| Calendar.TimestampReadsBack | src/proxy/pg_binary.rs:368-384 | Every 64-bit count is printed, and is read by the server as the same instant if and only if it lies between the start of year 1 and the end of year 294276 |
| Calendar.InfinitiesAreLost | src/proxy/pg_binary.rs:329-384 | The counts that mean infinity and minus infinity on the wire are printed as texts that no date or timestamp has |
| Calendar.EpochIsPrinted | src/proxy/pg_binary.rs:329-384 | The separators and widths: the first microsecond of the server's epoch and the last one before it, without and with the UTC suffix |
| Numeric.PrintInteger | src/proxy/pg_binary.rs:437-455 | The loop prints the groups up to the weight, the first one without leading zeros, absent groups as zeros |
| Numeric.PrintNumeric | src/proxy/pg_binary.rs:437-480 | Integer loop, fraction loops and the fitting to dscale together give the specified text |
| Numeric.NumericExactIff | src/proxy/pg_binary.rs:395-480 | A finite numeric is printed with its sign and dscale fractional digits, and the number read from the text is the signed base-10000 sum times or divided by a power of ten, cut at dscale, if and only if it has no digits, weight >= 0 or a zero first digit; otherwise it is off by exactly that digit |
| Numeric.HalfIsWrong | src/proxy/pg_binary.rs:437-480 | The server's bytes of 0.5 are printed as 5000.5 |
| Numeric.SpecialNumerics | src/proxy/pg_binary.rs:395-416 | By the bytes: NaN and both infinities by the sign field alone; no text if and only if the message is too short for its header or its digits or the digit count is below -4; an abort for a count of -4 to -1 |
| ArrayLiteral.ArrayQuote | src/proxy/pg_binary.rs:922-940 | The quoting loop gives the text itself, or the text in double quotes with quotes and backslashes escaped |
| ArrayLiteral.QuotesOnlyIfNeeded | src/proxy/pg_binary.rs:922-930 | A text is printed without quotes if and only if it is not empty, not NULL in any case, and has no comma, brace, quote, backslash or white space |
| ArrayLiteral.DecodeArray | src/proxy/pg_binary.rs:663-714 | The decoder with its element loop: literal, no literal, or abort, for every byte string |
| ArrayLiteral.LiteralReads | src/proxy/pg_binary.rs:922-940 | Any list of optional texts printed as an array literal is read back unchanged by the rules of the PostgreSQL manual, NULL apart from "NULL" and empty texts kept |
| ArrayLiteral.ArrayRoundTrip | src/proxy/pg_binary.rs:663-714 | Decoding the server's encoding of a list and reading the literal gives exactly the list of the element values; there is no literal if and only if some element cannot be decoded |
| ArrayLiteral.TextArrayReads | src/proxy/pg_binary.rs:747-750 | An array of text, name, varchar, bpchar or char elements reads back as their texts, and has no literal if and only if one of them is not UTF-8 |
| ArrayLiteral.JsonbArrayReads | src/proxy/pg_binary.rs:788-794 | An array of jsonb elements reads back as the texts behind the version bytes, and has no literal if and only if some element has another version than one or is not UTF-8 |
| ArrayLiteral.HeaderDecides | src/proxy/pg_binary.rs:664-693 | By the bytes of the header: too short, no dimension, several dimensions, another lower bound than one, a negative length |
| ArrayLiteral.LiteralIffEncoded | src/proxy/pg_binary.rs:663-714 | Behind a one-dimensional header any byte string has a literal if and only if it starts with encodings of the announced number of elements that can be decoded; the literal reads back as their values, and what follows is ignored |
| ArrayLiteral.NegativeElement | src/proxy/pg_binary.rs:697-711 | An element length below -1 aborts the decoder if and only if it reaches back no further than the start of the value; otherwise there is no literal |
| ArrayLiteral.QuotedLiteralIff | src/proxy/pg_binary.rs:253 | Any text put between single quotes as it is, is read by the server as itself if and only if it has no single quote |
| ArrayLiteral.ArrayConstantIff | src/proxy/pg_binary.rs:250-255 | For every readable encoded list: the server reads the SQL constant with its cast and parses exactly the element values if and only if none of them has a single quote |
| ArrayLiteral.PossessiveFails | src/proxy/pg_binary.rs:253 | The list of the text "it's" is printed as a constant that ends at its quote |
| Ipv6.CompressIpv6 | src/proxy/pg_binary.rs:613-648 | The loop finds the leftmost longest run of zero groups and the text is the rendering with that run replaced if it has two groups or more |
| Ipv6.BestIsUnique | src/proxy/pg_binary.rs:614-632 | The leftmost longest run is unique, so the text is determined by the groups |
| Ipv6.CompressedExpands | src/proxy/pg_binary.rs:633-648 | Expanding the text gives the groups back, and it has two colons in a row if and only if two zero groups are adjacent |
| Ipv6.LowerCase | src/proxy/pg_binary.rs:633-648 | Groups are written with lower-case hexadecimal digits |
| Ipv6.SampleAddress | src/proxy/pg_binary.rs:613-648 | The groups fe, 0, 0, 1 are written fe::1 |
| Wire.Channel.ReadMessage | src/proxy/protocol.rs:85-126 | Reads one frame as specified; by the bytes: when it is the end of the stream, a short read, a length below 4, a message over the limit, or a buffer that cannot be had; a message read is the type byte, the payload of that length, and the rest |
| Wire.Channel.WriteMessage | src/proxy/protocol.rs:170-176 | Appends the type byte unless it is zero, and the payload |
| Wire.FramesWriteBack | src/proxy/protocol.rs:85-176 | For every byte string: reading all frames and writing them back reproduces the input if and only if no type byte is zero, and loses one byte per zero type otherwise |
| Wire.ZeroTypeIsLost | src/proxy/protocol.rs:170-176 | The bytes 0,0,0,0,4 are read as one message and written back as 0,0,0,4 |
| Wire.FramingIsUnique | src/proxy/protocol.rs:85-176 | A stream is a concatenation of well-formed messages and an unreadable rest if and only if reading yields exactly these messages and this rest |
| Wire.ExtractErrorMessage | src/proxy/protocol.rs:501-521 | The field loop finds the first message field before the terminator |
| Wire.FindsFirstMessage | src/proxy/protocol.rs:501-521 | For any list of fields the text found is that of the first M field before the terminator or the end, and none if there is none |
| Wire.ErrorRoundTrip | src/proxy/protocol.rs:12-40 | A built error response is read as one frame whose body is the severity twice, the code and the message behind their type bytes, and the text found in it is the message if and only if that has no zero byte |
| Bind.ExpandFormats | src/proxy/protocol.rs:413-424 | Each parameter has one format, by the protocol's rule for no, one or n codes; other numbers of codes are padded with text or cut |
| Bind.ReadParams | src/proxy/protocol.rs:388-411 | The parameter loop stops at the first truncated parameter, and aborts where a negative length wraps around |
| Bind.ExtractBind | src/proxy/protocol.rs:352-431 | The extractor with its loops, for every message: names, parameters and formats, nothing, or abort |
| Bind.BindRoundTrip | src/proxy/protocol.rs:352-431 | Extraction gives back all NUL-free names and optional parameters, with one format per parameter (the only code, the code at its place, or text), if and only if both counts are below 32768 |
| Bind.CutEarly | src/proxy/protocol.rs:353-390 | A message that ends anywhere before its parameters is no Bind |
| Bind.CutMessage | src/proxy/protocol.rs:388-411 | A message that ends within a parameter gives the parameters before it and formats for these |
| Bind.NegativeLength | src/proxy/protocol.rs:388-411 | A parameter length below -1 aborts the extractor if it reaches back no further than the start of the body; otherwise the parameters before it are given |
| Bind.ManyCodes | src/proxy/protocol.rs:369-382 | With 32768 or more format codes the extractor aborts or finds nothing, by where the wrapped count seems to end |
| Bind.TooManyParamsAbort | src/proxy/protocol.rs:352-431 | From 32768 parameters on, with the format count in range, the extractor aborts |
| Bind.ManyNullsAbort | src/proxy/protocol.rs:352-431 | A Bind message with 32768 NULL parameters aborts it |
| Parameters.SplitEntries | src/capture/csv_log.rs:276-307 | The character loop splits at commas outside of quotes |
| Parameters.ParseParameters | src/capture/csv_log.rs:267-326 | The parser as specified: no prefix gives nothing, unreadable entries are passed over |
| Parameters.QuotedIsToken | src/capture/csv_log.rs:282-304 | Every SQL-quoted string can be a value, with doubled quotes, commas and " = " inside |
| Parameters.BareIsToken | src/capture/csv_log.rs:296-304 | Every other text without quotes, commas and whitespace at its ends can be a value |
| Parameters.ParametersRoundTrip | src/capture/csv_log.rs:267-326 | Every list of numbered quoted or bare values comes back unchanged from its printed line |
| Parameters.UnreadableIsPassedOver | src/capture/csv_log.rs:309-325 | An entry without an equals sign between blanks, or whose number does not fit into 64 bits, is passed over, and the entries around it come out |
| Replay.AssignTransactionIds | src/profile/mod.rs:148-170 | The in-place loop numbers the queries as specified: each BEGIN has the next number, the queries up to and including the COMMIT or ROLLBACK after it the same, queries outside of transactions none, and the counter advances by the number of BEGINs |
| Replay.NumberingIsWell | src/profile/mod.rs:148-170 | From unset ids, each transaction's queries are contiguous and every id is below the counter |
| Replay.ReplaySession | src/replay/session.rs:42-179 | The loop sends, records and skips exactly as the specification, for any server outcomes; read-only it sends statements of kind SELECT only and gives one result per SELECT, in order; read-write it gives one result per query, in order |
| Replay.ReadOnlySelects | src/profile/mod.rs:123-125 | Whatever the server does, every statement that a read-only replay sends is of kind SELECT |
| Replay.OneResultPerQuery | src/replay/session.rs:45-179 | There is one result per query, or per SELECT if the replay is read-only, in order |
| Replay.SentAndReported | src/replay/session.rs:45-179 | A query is sent if and only if the mode replays it and no earlier statement of its transaction was sent and refused (transaction control apart); each replayed query has its result at its place: succeeded, failed, or skipped as the end or inside of a failed transaction |
| Replay.FailedTransactionsStayClosed | src/replay/session.rs:51-168 | For every session, outcome pattern and mode: exactly one ROLLBACK per failed transaction, directly after the failing statement, and no later statement of that transaction |
| Replay.NeverIntoFailedIff | src/replay/session.rs:42-179 | Readable off the captured session: no legal server outcomes make the replay send a statement into a failed transaction if and only if writes are not replayed, or no statement that the replay does not roll back (transaction control that can fail, or without a transaction number) stands before another one in an open transaction |
| Replay.NeverIntoFailedUnchained | src/profile/mod.rs:148-170 | Without AND CHAIN the same holds with a condition on the assigned numbers: a transaction-control statement that can fail comes while a number is open, and is not the last |
| Replay.RiskComesTrue | src/replay/session.rs:136-145 | For each such statement, the outcomes that refuse it alone make the next statement go into a failed transaction |
| Replay.RefusedControlRun | src/profile/mod.rs:93-121 | BEGIN, a refused statement classified as transaction control such as COMMIT PREPARED, SELECT: the SELECT is sent into a failed transaction |
| Scaling.ScaleSessions | src/replay/scaling.rs:6-45 | The loops give copy after copy of the sessions with shifted ids and starts |
| Scaling.ScaledAt | src/replay/scaling.rs:6-45 | Copy k of session i is at its place, k staggers later in all queries and with k times the number of sessions added to its id, otherwise the same without original texts and responses; factors zero and one change nothing |
| Scaling.ScaledDistinctIff | src/replay/scaling.rs:6-45 | The scaled sessions have different ids if and only if no session's id is another's plus k times the number of sessions, for any k below the factor |
| Scaling.CountedIdsStayApart | src/replay/scaling.rs:6-45 | Sessions numbered 1 to N, in any order, have different ids under every factor |
| Scaling.CopiesCollide | src/replay/scaling.rs:16-18 | Sessions 1 and 3, doubled, get the id 3 twice |
| Scaling.ScaleSessionsByClass | src/replay/scaling.rs:77-153 | Both passes over the classes, whatever their order, and the final sort give the specified list |
| Scaling.ByClassDistinct | src/replay/scaling.rs:77-153 | For every order of the classes the result's ids differ if and only if those of the kept originals do, and so if all original ids differ |
| Scaling.ByClassIsOriginalsAndCopies | src/replay/scaling.rs:77-153 | The number of sessions is the sum of the factors times the class sizes; the originals of the classes whose factor is not zero are all there, unchanged, and everything else is a copy of an original of a copied class with one offset on all its queries; the result ascends by first offset |
| Scaling.CopyIsThere | src/replay/scaling.rs:110-148 | Every copy of every class is in the result, with the id and the stagger that count all copies made before it, behind the largest original id |
| Scaling.SortsByFirstOffset | src/replay/scaling.rs:151-152 | The final sort ascends by the offset of the first query, keeps the order of sessions that start together, and loses and adds none |
| ForeignKeys.Search.Visit | demo/synthetic-data-gen.py:419-425 | The depth-first visit terminates on every graph, finishes everything it newly visits, and keeps parents first unless there is a circle |
| ForeignKeys.Search.Sort | demo/synthetic-data-gen.py:427-429 | Visiting every table lists each once, parents first if and only if there is no circle |
| ForeignKeys.OrderedIsAcyclic | demo/synthetic-data-gen.py:408-429 | No order of a graph with a circle has parents first |
| ForeignKeys.MutualReferences | demo/synthetic-data-gen.py:408-429 | Two tables that refer to each other have no order with parents first |
| ForeignKeys.DataGenerator.TopoSortTables | demo/synthetic-data-gen.py:408-429 | Every table is listed once, and parents come first if and only if there is no circle apart from self-references |
| ForeignKeys.DataGenerator.ForeignKeyValue | demo/synthetic-data-gen.py:470-482 | For every random choice the value is the stored key of some row of a generated parent, or a number from one to the table's own row count |
| ForeignKeys.LastKeyCounts | demo/synthetic-data-gen.py:453 | Of several foreign keys of one column the last one counts |
| ForeignKeys.DataGenerator.GenerateTable | demo/synthetic-data-gen.py:450-487 | The rows have exactly the kept columns, and every foreign-key value names a row of a generated parent or lies within the table's own row numbers |
| ForeignKeys.DataGenerator.GenerateAll | demo/synthetic-data-gen.py:441-448 | Every table gets its rows, ten or the scaled number if that is more, made from the tables before it in an order that has parents first if and only if there is no circle; without a circle every foreign key to a listed table names a row of it, for every random choice, except a self-reference to a column that is itself generated |
| GeneratedKeys.KeyMissesIff | demo/synthetic-data-gen.py:441-487 | For any order, with circles or not: some random choices make a foreign key miss if and only if its table is not generated before and is outside the list, or its key column is generated here and is not the foreign key itself, or it has fewer rows than the referring table; the values of other columns are arbitrary |
| ForeignKeys.WorkloadSynthesizer.FkSortedTables | demo/synthesize-workload.py:989-1007 | The same search over the schema: every table once, parents first if and only if there is no circle |
| Pool.SessionPool.TryCheckout | src/proxy/pool.rs:94-158 | One critical section: drops stale connections at the front, then hands out the first one that is not, reserves a slot under the next id, or refuses; stale means opened or unused for the configured seconds or longer, in nanoseconds |
| Pool.SessionPool.FinishConnect | src/proxy/pool.rs:157-166 | The reserved slot becomes a connection held by the client, under the reserved id |
| Pool.SessionPool.FailConnect | src/proxy/pool.rs:157-159 | The reserved slot is lost: the counter stays raised |
| Pool.SessionPool.Abandon | src/proxy/connection.rs:299-321 | A session that ends with an error while writing the startup message or relaying authentication drops its connection and leaves the counter raised |
| Pool.SessionPool.DiscardOne | src/proxy/pool.rs:225-230 | The counter is lowered and the connection is gone |
| Pool.SessionPool.CheckIn | src/proxy/pool.rs:191-222 | Returns a connection to the end of the queue, marked with the time, or drops it when its lifetime is over; the counter goes down |
| Pool.SessionPool.Reap | src/proxy/pool.rs:240-266 | Keeps exactly the connections that have not been unused for the timeout, in order, and counts the others |
| Pool.StepKeepsAccounts | src/proxy/pool.rs:94-266 | Every step keeps the accounts, and no decrement of the counter saturates |
| Pool.RunsKeepAccounts | src/proxy/pool.rs:94-266 | Over every interleaving the counter is connections held plus connecting plus slots lost, counter and queue together stay within the size, and no id is in two places |
| Pool.CheckoutGrants | src/proxy/pool.rs:94-184 | A checkout is refused if and only if all waiting connections are stale and the slots are used up; what is handed out is the first that is not stale, and its id is not in use |
| Pool.LeaksExhaustThePool | src/proxy/pool.rs:146-159 | Slots lost by failed connects or sessions that end with an error never come back: when they fill the pool, every later checkout is refused |
| Listener.IpConnectionMap.AcceptOne | src/proxy/listener.rs:105-116 | The count is raised and compared; the connection is accepted or a rejection begins |
| Listener.IpConnectionMap.LowerRejected | src/proxy/listener.rs:116-120 | The count raised for a rejected connection is lowered again; an entry of zero stays |
| Listener.IpConnectionMap.DropGuard | src/proxy/listener.rs:30-43 | Dropping a guard lowers the count, and says whether it reached zero |
| Listener.IpConnectionMap.RemoveEntry | src/proxy/listener.rs:36-41 | The entry goes if and only if it is zero at that moment |
| Listener.LimitIsKept | src/proxy/listener.rs:105-172 | Over every interleaving no address has more live connections than the limit, an absent entry means none, and a connection is accepted if and only if its address is below the limit |
| Listener.CleanUnlessLate | src/proxy/listener.rs:30-121 | A step leaves an entry of zero that is not about to be removed if and only if it ends a rejection for an address that has no live connection and no remover any more |
| Listener.CleanIffPrompt | src/proxy/listener.rs:30-121 | At every point of a run an entry of zero is about to be removed if and only if no such late rejection happens |
| Listener.RejectionLeavesEntry | src/proxy/listener.rs:116-121 | A rejection that ends after the last guard leaves an entry of zero that nobody removes |

## Left out

- Sockets, TLS, authentication relay, timers and HTTP: messages are lists, timeouts are steps that may happen at any time, read and write failures end a run.
- Extended-protocol correlation, pipelining, multi-statement queries, COPY and switching capture off in the middle of a query: the relay model has one simple query at a time; an answer is any list of server messages that ends with ReadyForQuery and has a completion.
- Malformed server messages: ServerMsg carries parsed columns, values and messages.
- SQL analyses (has RETURNING, inject RETURNING, currval or lastval): arbitrary functions of the text.
- The persistent-mode proxy, its capture limits and the shutdown flush: the managed command loop is modelled instead.
- SQLite: inserts and reads succeed, rows with equal timestamp_us come back in insertion order; the JSON of response rows is the rows.
- Connections without correlation state (`correlate` absent): correlation is on in the relay model.
- Control.ManagedProxy.constructor: requires an empty staging table, while a standalone staging database keeps the rows of earlier runs; those have other capture ids, so they are neither read nor cleared.
- Building profiles: masking and the numbering of transactions inside them; Control's profiles are the staged rows.
- Control.CapturesAreIsolated: takes each command and each forwarded event as one step, because the commands are handled under one loop; events that the relays emit while a command is half done count as before or after it.
- Instants are numbers; session ids are natural numbers rather than 64-bit ones cast to signed ones.
- Debug builds: overflow checks abort where `Numeric`, `ArrayLiteral` and `Bind` wrap around as a release build does. A vector for up to 2^31 announced elements is taken to be allocatable.
- Bind.BindRoundTrip: names are byte strings, because replacing invalid UTF-8 is library code; so are the texts of `Wire.ErrorRoundTrip`.
- ArrayLiteral.ArrayRoundTrip: the UTF-8 decoder and the renderers of element types other than text and jsonb are parameters; those that the source prints without quotes are taken to give words that need none.
- Nested arrays, dimension prefixes and the other binary types (intervals, bit strings, UUIDs, floats, vectors, hstore): the decoder has no nested arrays, and the others are fixed layouts or library formatting.
- The server in `Replay`: accepted and refused BEGIN, COMMIT and ROLLBACK, AND CHAIN and ROLLBACK TO set its transaction state as PostgreSQL does; which statements can fail or chain is a parameter, and statements that contain several commands are not modelled; id substitution and pacing do not change what is sent.
- Profiles.ProfileHoldsTheExchanges: each connection begins and finishes its exchanges inside the window; for one that is open across a Start or a Stop, `Control.ProfileHoldsItsQueries` says what is kept.
- Random choices and generated column values in `ForeignKeys` are arbitrary; scaled row counts are given as integers because the source computes them in floating point.
- ForeignKeys.WorkloadSynthesizer.FkSortedTables: the references of a table are followed in any order, which includes the order of the source's list.
- Pool: the wait between two attempts of a checkout and its time limit; a checkout that is cancelled while connecting counts as a failed connect.
- Listener: a limit of zero, which switches the counting off, and the 32-bit width of the counters, which hold at most the limit plus one.
- Wire.Channel.ReadMessage: what a failed read leaves unread is not stated, because the stream is not used again.
- Scaling: the 64-bit width of ids and offsets; the classifier is a parameter.
- Startup classification and the remaining scalar decoders: fixed layouts and tables.
- Reports, classification, the web interface, provisioning and the other log front ends.
