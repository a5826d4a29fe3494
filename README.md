# Serilog.Sinks.Network, TCP side, in Dafny

This project models the TCP side of Serilog.Sinks.Network in Dafny and proves properties of the model. That side is a logging sink that ships formatted log lines to a remote collector, and it has four parts:

- **`TcpSocketWriter`** keeps log entries in a bounded queue that drops the oldest entry when full. A single consumer loop writes the entries one at a time to a stream. When a write fails, the loop reopens the stream with exponential backoff. On shutdown it completes the queue and drains it.
- **`LogstashJsonFormatter`** turns one event into one JSON object on one line.
- **The configuration extensions** validate the sink's URI and forward the string overloads.
- **`TCPSink`** formats an event, renames `RenderedMessage` to `message`, and enqueues the text.

Modules, one per source component:

| module | file | models |
|---|---|---|
| `Common` | common.dfy | null references (`Option`), thrown exceptions (`Result`, `Outcome`), ASCII lower-casing |
| `Exceptions` | exceptions.dfy | exceptions with their chain of inner exceptions, and the search for the outermost `SocketException` |
| `Queues` | queues.dfy | `FixedSizeQueue<T>`, a class over a `seq` with `size` and `isCompleted` fields |
| `Reconnection` | reconnection.dfy | `ExponentialBackoffTcpReconnectionPolicy`: the wait function `Delay` and the `ConnectAsync` loop |
| `Drain` | drain.dfy | the shutdown drain loop of `FlushQueue`, as a function of its starting state |
| `SocketWriter` | socketwriter.dfy | class `TcpSocketWriter`: `UnexpectedErrorLogger`, the constructor defaults, `Enqueue`, `FlushQueue`, `Run` and `Dispose` |
| `Json` | json.dfy | the JSON strings and objects the formatter writes, and a reader for them |
| `Formatter` | formatter.dfy | `LogstashJsonFormatter`, writing to a `TextWriter` class |
| `Configuration` | configuration.dfy | `BuildUri`, the `TCPSink` and `FluentdTCPSink` overloads, the default formatter |
| `Sinks` | sinks.dfy | class `TcpSink`: `Emit`, the `RenderedMessage` rewrite, `Dispose` |

How the outside world enters the model:

- **Connect and write.** Each connect attempt and each write-and-flush is taken from a script: a total function from the attempt number to its outcome. `attempt(k)` is the k-th `OpenSocket` call of the first connect and `write(k)` the k-th write. Reopen `j` of `Run` is scripted by `reopenAttempt(j)` and `reopenCancelAt(j)`, as the first connect is by `attempt` and `cancelAt`.
- **Cancellation tokens.** A token is a number: the index of the first test of the token that sees it set. The tokens are disposing (`disposeAt`), force-quit (`forceQuitAt`), and the disposing token as `ConnectAsync` tests it (`cancelAt`). `Dispose` sets the fields `disposing` and `forceQuit`, but no loop reads them: the fields record what `Dispose` requested, and the loops see the tokens only through those numbers.
- **The wire.** The ghost sequence `wire` records the entries whose write and flush both succeeded, in order. A write-and-flush is all or nothing here; see "Left out" for what this does not capture.
- **The failure handler.** Calls to `LoggingFailureHandler` appear as the ghost sequence `notes` of exceptions. `OpenSocket` reports every failed connect attempt before rethrowing it (lines 159-162), and this is `Reconnection.Reports`. The background task's catch (lines 130-133) reports an exception that escapes the first connect a second time. `Run` reports each `IOException` or `SocketException` of a write (lines 197 and 202), followed by the reports of the reopen. `FlushQueue` reports a retried `SocketException` and the null-stream error (lines 227 and 243).
- **Formatted text.** A formatter applied to an event is a function value passed to the sink.

One point where the model follows the code rather than the intended design: the first backoff wait is 1 second in the code (TCPSocketWriter.cs line 291). A schedule whose first wait is 0 seconds does not match it. So `Delay(0) == 1`, and the n-th wait (counting from 1) is `min(600, 2^n - 1)`.

## Model

| member | source | states |
|---|---|---|
| `Exceptions.FirstSocketCodeIsOutermost` | Serilog.Sinks.Network/Sinks/TCP/TCPSocketWriter.cs:81-96 | The reported code is `c` exactly when some exception of the inner chain is a `SocketException` with code `c` and no exception before it in the chain is a `SocketException`. |
| `Exceptions.NoSocketCodeIffNoSocketException` | Serilog.Sinks.Network/Sinks/TCP/TCPSocketWriter.cs:81-96 | No code is reported exactly when no exception of the chain is a `SocketException`. |
| `SocketWriter.UnexpectedErrorLogger` | Serilog.Sinks.Network/Sinks/TCP/TCPSocketWriter.cs:81-96 | The do-while walk hands the callback the original exception and the code of the outermost `SocketException`, or null; the two lemmas above show what that code is. |
| `Queues.AfterPushesKeepsNewest` | Serilog.Sinks.Network/Sinks/TCP/TCPSocketWriter.cs:343-359 | Any sequence of pushes onto an open queue leaves exactly the last `min(size, n)` items pushed, in push order, and never more than `size`. |
| `Queues.FixedSizeQueue.constructor` | Serilog.Sinks.Network/Sinks/TCP/TCPSocketWriter.cs:337-341 | A new queue has the given size, is not completed and is empty. |
| `Queues.FixedSizeQueue.Count` | Serilog.Sinks.Network/Sinks/TCP/TCPSocketWriter.cs:380 | The count never exceeds the size. |
| `Queues.FixedSizeQueue.Enqueue` | Serilog.Sinks.Network/Sinks/TCP/TCPSocketWriter.cs:343-359 | On a completed queue it fails with `InvalidOperationException` and leaves the contents unchanged. Otherwise the contents become the newest `size` items of the old contents plus the new one, with the oldest taken from the head. The completed flag is unchanged either way. |
| `Queues.FixedSizeQueue.CompleteAdding` | Serilog.Sinks.Network/Sinks/TCP/TCPSocketWriter.cs:361-367 | Sets the completed flag and removes nothing. Calling it again changes nothing more. |
| `Queues.FixedSizeQueue.Dequeue` | Serilog.Sinks.Network/Sinks/TCP/TCPSocketWriter.cs:369-377 | Removes and returns the head item. On an empty queue, where the source blocks, it returns None and changes nothing. |
| `Queues.DropOldestScenario` | Serilog.Sinks.Network/Sinks/TCP/TCPSocketWriter.cs:343-377 | With size 2, pushing `a`, `b`, `c` and then taking twice yields `b` and then `c`, and leaves the queue empty. |
| `Reconnection.DelayClosedForm` | Serilog.Sinks.Network/Sinks/TCP/TCPSocketWriter.cs:291-317 | The wait after failure `n` (counting from 0) is `min(600, 2^(n+1) - 1)` seconds. |
| `Reconnection.Delay` | Serilog.Sinks.Network/Sinks/TCP/TCPSocketWriter.cs:286-317 | Every wait is at least 1 second and at most the 600-second ceiling. |
| `Reconnection.DelayMonotone` | Serilog.Sinks.Network/Sinks/TCP/TCPSocketWriter.cs:315-317 | A later wait is never shorter than an earlier one. |
| `Reconnection.DelayPlateau` | Serilog.Sinks.Network/Sinks/TCP/TCPSocketWriter.cs:286-317 | Once a wait reaches the ceiling, every later wait is the ceiling. |
| `Reconnection.DelayReachesCeiling` | Serilog.Sinks.Network/Sinks/TCP/TCPSocketWriter.cs:286-317 | From the tenth failure on, the wait is the 600-second ceiling. |
| `Reconnection.ConnectFrom` | Serilog.Sinks.Network/Sinks/TCP/TCPSocketWriter.cs:288-322 | The connect loop as a function: the attempts it makes never go past the cancellation test, and a cancelled connect has used every test. |
| `Reconnection.ConnectFromAttempts` | Serilog.Sinks.Network/Sinks/TCP/TCPSocketWriter.cs:288-322 | Every attempt before the last threw a retried exception. A connect that returns a stream or propagates an exception does so at its last attempt, and a propagated exception is not one that is retried. |
| `Reconnection.ConnectAsync` | Serilog.Sinks.Network/Sinks/TCP/TCPSocketWriter.cs:288-322 | Returns the stream of the first attempt that connects. It waits `Delay(j)` after failure `j`, and only after a `SocketException` or an `IOException` wrapping one. Any other exception propagates from the attempt that threw it. When cancellation is seen at the loop test, it returns null with no further attempt. The result and attempt count are those of `ConnectFrom`. |
| `Reconnection.Reports` | Serilog.Sinks.Network/Sinks/TCP/TCPSocketWriter.cs:143-163 | `OpenSocket` reports at most one exception per attempt. |
| `Reconnection.ReportsOfThrown` | Serilog.Sinks.Network/Sinks/TCP/TCPSocketWriter.cs:159-162 | When every attempt threw, each is reported, in order. |
| `Reconnection.ConnectReportsEveryFailure` | Serilog.Sinks.Network/Sinks/TCP/TCPSocketWriter.cs:143-163 | A connect reports every failed attempt in order, and only those: all attempts except a last one that connected. A propagated exception is the last one reported. |
| `Drain.Iterate` | Serilog.Sinks.Network/Sinks/TCP/TCPSocketWriter.cs:211-247 | One iteration makes at most one write. When the loop goes on, it has made a new force-quit test, and the tests stay within the force-quit bound. |
| `Drain.Flush` | Serilog.Sinks.Network/Sinks/TCP/TCPSocketWriter.cs:209-248 | The drain never goes back on a write. When it ends because the queue is empty, the queue is empty, and under the corrected guard no entry is held. |
| `Drain.IterateKeepsOrder` | Serilog.Sinks.Network/Sinks/TCP/TCPSocketWriter.cs:211-247 | One iteration of the drain loop only appends to the wire, and what it appends is the front of the held entry followed by the queue. |
| `Drain.FlushKeepsOrder` | Serilog.Sinks.Network/Sinks/TCP/TCPSocketWriter.cs:209-248 | Whatever the writes do, the drain only appends to the wire, and what it appends is a prefix of what was pending, in order: nothing is skipped, duplicated or reordered. |
| `Drain.FlushAsWrittenLosesLastEntry` | Serilog.Sinks.Network/Sinks/TCP/TCPSocketWriter.cs:211-229 | Under the guard as written (`Count > 0`), a drain with something pending over a healthy stream with no force-quit ends with an empty queue. The last pending entry is then still held and was never written; everything before it was written. |
| `Drain.FlushAsWrittenDropsSingleEntry` | Serilog.Sinks.Network/Sinks/TCP/TCPSocketWriter.cs:211-229 | Concrete instance: draining a queue holding a single entry writes nothing. |
| `Drain.FlushAsWrittenDropsHeldEntry` | Serilog.Sinks.Network/Sinks/TCP/TCPSocketWriter.cs:211-229 | Concrete instance: an entry held when the drain starts, with nothing queued behind it, is never written. |
| `Drain.FlushCorrectedWritesAll` | Serilog.Sinks.Network/Sinks/TCP/TCPSocketWriter.cs:209-248 | With the guard corrected (also go on while an entry is held), the same drain writes the held entry and then every queued entry, in order. |
| `Drain.FlushEmptyMeansDelivered` | Serilog.Sinks.Network/Sinks/TCP/TCPSocketWriter.cs:209-248 | A drain that ends because the queue is empty has written everything that was pending, except the entry it may still hold, whatever `SocketException`s it retried on the way. Under the corrected guard it holds none, so it has written exactly what was pending. |
| `Drain.FailuresSplit` | Serilog.Sinks.Network/Sinks/TCP/TCPSocketWriter.cs:239-243 | The failures of a range of writes are the failures of its first part followed by those of the rest. |
| `Drain.ReportedCompose` | Serilog.Sinks.Network/Sinks/TCP/TCPSocketWriter.cs:209-248 | Reports of two consecutive ranges of writes are reports of the whole range. |
| `Drain.IterateReports` | Serilog.Sinks.Network/Sinks/TCP/TCPSocketWriter.cs:239-243 | An iteration that goes on has reported its write if that write failed. An iteration that stops has reported everything before its own failed write. |
| `Drain.FlushReportsFailures` | Serilog.Sinks.Network/Sinks/TCP/TCPSocketWriter.cs:209-248 | Over a stream, the drain reports every failed write in order, and nothing else. The exception is a last failed write on which it stops: an exception that escapes, or a force-quit seen after a `SocketException`. |
| `SocketWriter.StreamOf` | Serilog.Sinks.Network/Sinks/TCP/TCPSocketWriter.cs:125-127 | The stream is non-null exactly when the connect returned a stream, and then it is that stream. |
| `SocketWriter.TcpSocketWriter.constructor` | Serilog.Sinks.Network/Sinks/TCP/TCPSocketWriter.cs:105-141 | The queue has the given size and is empty. Missing timeouts default to 30000 ms. The stream is that of the first connect, which goes through `ConnectAsync` over `OpenSocket`. The failure handler has been told of each failed attempt, in order. An exception that escapes the connect is then reported a second time. |
| `SocketWriter.TcpSocketWriter.Enqueue` | Serilog.Sinks.Network/Sinks/TCP/TCPSocketWriter.cs:269-272 | The same contract as the queue's `Enqueue`, for the writer's queue. |
| `SocketWriter.TcpSocketWriter.FlushQueue` | Serilog.Sinks.Network/Sinks/TCP/TCPSocketWriter.cs:209-248 | The loop ends in exactly the state, held entry, wire, notifications and write count that `Drain.Flush` gives for its starting state. |
| `SocketWriter.TcpSocketWriter.CompleteAndDrain` | Serilog.Sinks.Network/Sinks/TCP/TCPSocketWriter.cs:172-177 | Completes the queue before draining and keeps wire order. When the drain ends on an empty queue, everything pending is on the wire except what it still holds; under the corrected guard that is nothing. The failed writes of the drain are reported, as `Drain.FlushReportsFailures` states. |
| `SocketWriter.TcpSocketWriter.Reopen` | Serilog.Sinks.Network/Sinks/TCP/TCPSocketWriter.cs:195-204 | Reports the write's exception, then the failed attempts of the reopen. The stream becomes the reopen's stream, or null when the reopen is cancelled. An exception that escapes the reopen is returned. |
| `SocketWriter.TcpSocketWriter.Run` | Serilog.Sinks.Network/Sinks/TCP/TCPSocketWriter.cs:166-207 | Entries reach the wire in dequeue order, and no dequeued entry is skipped. What is not yet written is still held or queued, so a failed entry is written again after the reopen. The queue is completed only on the shutdown path. A drain ending on an empty queue leaves at most its last entry held and unwritten (the guard as written); under the corrected guard it delivers everything queued. The loop ends on a null stream, and only there does `Run` end with no stream; every other end, including an exception escaping a reopen, keeps a stream. The failure handler is told, in order, of each write failure that leads to a reopen, each followed by that reopen's failed attempts (`RunReports`), and then of the drain's failed writes. |
| `SocketWriter.TcpSocketWriter.Dispose` | Serilog.Sinks.Network/Sinks/TCP/TCPSocketWriter.cs:250-263 | Sets the disposing request and then the force-quit request. |
| `Json.QuoteRoundTrip` | Serilog.Sinks.Network/Formatters/LogstashJsonFormatter.cs:61-66 | A quoted, escaped key or value reads back as the same string, and the reader stops right after the closing quote. |
| `Json.ObjectRoundTrip` | Serilog.Sinks.Network/Formatters/LogstashJsonFormatter.cs:35-59 | An object written as `{`, comma-joined `"key":"value"` members and `}` reads back as the same members in the same order. |
| `Json.MembersSnoc` | Serilog.Sinks.Network/Formatters/LogstashJsonFormatter.cs:72-76 | Appending a member adds a comma only when there was a member before it. |
| `Json.MembersAppend` | Serilog.Sinks.Network/Formatters/LogstashJsonFormatter.cs:68-83 | Joining two non-empty member lists puts exactly one comma between them. |
| `Json.MembersEndWithQuote` | Serilog.Sinks.Network/Formatters/LogstashJsonFormatter.cs:68-83 | Joined members end with the closing quote of the last value, never with a comma. |
| `Json.NoCommaBeforeClosingBrace` | Serilog.Sinks.Network/Formatters/LogstashJsonFormatter.cs:56-58 | The character before the object's closing brace is never a comma. |
| `Formatter.CamelCase` | Serilog.Sinks.Network/Formatters/LogstashJsonFormatter.cs:78 | Only the first character of the key is lower-cased. The rest is kept, and the length is the same. |
| `Formatter.PropertyMembers` | Serilog.Sinks.Network/Formatters/LogstashJsonFormatter.cs:73-82 | Property `i`, in enumeration order, becomes member `i` under its camel-cased key. |
| `Formatter.LogstashMembers` | Serilog.Sinks.Network/Formatters/LogstashJsonFormatter.cs:40-58 | Members 0, 1 and 2 are the timestamp, level and message. When there is an exception, member 3 is `"exception"` with its text. The camel-cased properties follow in order (a property keyed `Exception` is also written as `"exception"`), so the count is 3, plus one for an exception, plus the number of properties. |
| `Formatter.FormatTextReadsBack` | Serilog.Sinks.Network/Formatters/LogstashJsonFormatter.cs:29-59 | The text written for an event reads back as exactly its members, followed by one line terminator. |
| `Formatter.FormatTextNoTrailingComma` | Serilog.Sinks.Network/Formatters/LogstashJsonFormatter.cs:68-83 | With or without properties, the line ends in `}` and a newline, and no comma comes before the `}`. |
| `Formatter.ExceptionEndsObject` | Serilog.Sinks.Network/Formatters/LogstashJsonFormatter.cs:50-54 | An event with an exception and no properties is the fixed members, a comma, the `"exception":...` pair, `}` and a newline. |
| `Formatter.WritePropertyAndValue` | Serilog.Sinks.Network/Formatters/LogstashJsonFormatter.cs:61-66 | Appends the quoted key, `:` and the quoted value. |
| `Formatter.WriteProperties` | Serilog.Sinks.Network/Formatters/LogstashJsonFormatter.cs:68-83 | Appends a leading comma exactly when there is a property, then the properties joined by the `precedingDelimiter` commas. |
| `Formatter.FormatContent` | Serilog.Sinks.Network/Formatters/LogstashJsonFormatter.cs:35-59 | A null event or writer fails with `ArgumentNullException` naming the parameter, and nothing is written. Otherwise it appends exactly the object of `LogstashMembers`. |
| `Formatter.Format` | Serilog.Sinks.Network/Formatters/LogstashJsonFormatter.cs:29-33 | The same, followed by one line terminator; no line terminator when the content throws. |
| `Configuration.BuildUri` | Serilog.Sinks.Network/NetworkLoggerConfigurationExtensions.cs:113-129 | A string that does not parse gives `ArgumentNullException` wrapping the format error. Port 0 gives `UriFormatException`, and it is checked before the scheme. Otherwise the scheme must be `tcp` or `tls` in any case. A URI that passes is returned unchanged. |
| `Configuration.SchemeAcceptedLetters` | Serilog.Sinks.Network/NetworkLoggerConfigurationExtensions.cs:126-127 | The scheme test accepts exactly three letters: `t`, then `c` and `p` or `l` and `s`, each letter in either case. |
| `Configuration.SchemeAcceptedIgnoresCase` | Serilog.Sinks.Network/NetworkLoggerConfigurationExtensions.cs:126-127 | Lower-casing the scheme never changes the verdict. |
| `Configuration.ChooseFormatter` | Serilog.Sinks.Network/NetworkLoggerConfigurationExtensions.cs:61-69 | A null formatter is replaced by the Logstash formatter; a given one is kept. |
| `Configuration.TcpSinkAt` | Serilog.Sinks.Network/NetworkLoggerConfigurationExtensions.cs:40-49 | The address overload adds a sink for that address and port, with the default formatter choice and the given level. |
| `Configuration.TcpSinkTo` | Serilog.Sinks.Network/NetworkLoggerConfigurationExtensions.cs:61-69 | The URI overload fails exactly when `BuildUri` fails, with the same error, and otherwise adds a sink for the built URI. |
| `Configuration.IntTextRoundTrip` | Serilog.Sinks.Network/NetworkLoggerConfigurationExtensions.cs:58 | The decimal text of the port reads back as the port. |
| `Configuration.HostPortForwarded` | Serilog.Sinks.Network/NetworkLoggerConfigurationExtensions.cs:51-59 | The host and port overload forwards the host, a colon and the decimal port, and the port can be read back from that string. |
| `Configuration.TcpSinkToHost` | Serilog.Sinks.Network/NetworkLoggerConfigurationExtensions.cs:51-59 | The host and port overload fails exactly as the URI `host:port` fails, with the same error. Otherwise it adds a sink for that URI, with the formatter choice and level it was given. |
| `Configuration.FluentdTcpSink` | Serilog.Sinks.Network/NetworkLoggerConfigurationExtensions.cs:71-74 | The Fluentd overload fails exactly as `tcp://ip:port` fails. Otherwise it adds a sink for that URI with the Fluentd formatter and no level restriction. |
| `Sinks.ReplaceAllLength` | Serilog.Sinks.Network/Sinks/TCP/TCPSink.cs:34 | Replacing with a shorter text never lengthens; it shortens exactly when the pattern occurs. |
| `Sinks.ReplaceAllNoOccurrence` | Serilog.Sinks.Network/Sinks/TCP/TCPSink.cs:34 | Text without the pattern is copied unchanged. |
| `Sinks.ReplaceAllUnchangedIff` | Serilog.Sinks.Network/Sinks/TCP/TCPSink.cs:34 | With a shorter replacement, the text is unchanged exactly when the pattern does not occur. |
| `Sinks.RenameMessageRemovesAll` | Serilog.Sinks.Network/Sinks/TCP/TCPSink.cs:34 | The enqueued text never contains `RenderedMessage`: every occurrence is replaced, and no replacement forms a new one. |
| `Sinks.RenameMessageCopiesPrefix` | Serilog.Sinks.Network/Sinks/TCP/TCPSink.cs:34 | A prefix of the renamed text that has no lower-case `m` is copied unchanged from the formatted text, because every replacement begins with the `m` of `message`. |
| `Sinks.RenameMessageUnchangedIff` | Serilog.Sinks.Network/Sinks/TCP/TCPSink.cs:34 | The formatted text is enqueued unchanged exactly when it never contains `RenderedMessage`. |
| `Sinks.TcpSink.constructor` | Serilog.Sinks.Network/Sinks/TCP/TCPSink.cs:21-25 | Keeps the given writer and formatter. |
| `Sinks.TcpSink.FromUri` | Serilog.Sinks.Network/Sinks/TCP/TCPSink.cs:16-19 | Creates a writer with the defaults: queue size 5000, 30000 ms timeouts, an empty open queue, and the stream of its first connect. |
| `Sinks.TcpSink.Emit` | Serilog.Sinks.Network/Sinks/TCP/TCPSink.cs:27-36 | Enqueues exactly one string: the formatter's output with `RenderedMessage` renamed to `message`. A completed queue refuses it unchanged. |
| `Sinks.TcpSink.Dispose` | Serilog.Sinks.Network/Sinks/TCP/TCPSink.cs:38-41 | Disposes the writer and changes nothing else. |

## Findings

| source | as written | input that shows it | evidently intended | confidence | as-written member | corrected member |
|---|---|---|---|---|---|---|
| Serilog.Sinks.Network/Sinks/TCP/TCPSocketWriter.cs:211 | `FlushQueue` loops `while (_eventQueue.Count > 0)`. The first iteration after dequeuing the last entry finds the queue empty and leaves before writing that entry. | Shutdown with a healthy stream, no force-quit, no held entry, and one queued entry `x`: the drain takes `x` and stops, and `x` is never written. When an entry is already held the same happens to the last queued one. | Go on while an entry is held or the queue is non-empty (`entry != null \|\| Count > 0`), so that a clean drain writes every entry. | high (proved on the model, not executed) | `Drain.FlushAsWrittenLosesLastEntry` | `Drain.FlushCorrectedWritesAll` |

`Drain.FlushAsWrittenDropsSingleEntry` and `Drain.FlushAsWrittenDropsHeldEntry` are concrete instances. `FlushQueue`, `CompleteAndDrain` and `Run` take the guard as the parameter `untilHeldWritten`. With `false` they are the source as written, and a drain ending on an empty queue may leave its last entry held and unwritten. With `true` they are the correction, and such a drain has delivered everything queued (`Drain.FlushEmptyMeansDelivered`, `SocketWriter.TcpSocketWriter.Run`).

## Left out

- Sockets and TLS (`OpenSocket`, `TcpClient`, `SslStream`): what opening, writing and flushing do is a script of outcomes.
- The byte encoding (`Encoding.UTF8.GetBytes`): an entry reaches the wire as a whole string.
- Threads and timing: the background task, its 5-second readiness wait, the real waits of the backoff, and the `Task.WhenAny` race in `Dispose`. The cancellation tokens are seen only at the tests that `disposeAt`, `forceQuitAt` and `cancelAt` count, and the dispose timeout is not modelled. `Run` is sequential, so no producer calls `Enqueue` while it runs. A drop-oldest eviction of queued entries while the writer holds an entry or waits on a reopen is therefore not captured; `Enqueue`'s own contract states the eviction.
- `OperationCanceledException`: a cancelled `Take`, `Task.Delay` or `WriteAsync` throws it in the source. The model lets cancellation be seen only at the tests of the token, so a take or a wait always completes, and a write is never cut off by the force-quit token. This matters most for the drain. `FlushQueue` takes with the disposing token (line 218), and that token is already set whenever the drain runs: `Run` enters it only after seeing the token (line 172). So in the source every take of the drain throws at once, the exception leaves `Run`, and the background task's catch reports it. At most an entry already held is written, and only when the queue is non-empty. The modelled drain, whose takes complete, is the loop as written without that effect.
- Partial writes: a write-and-flush is one outcome, all or nothing. In the source, a `WriteAsync` that succeeds followed by a `FlushAsync` that throws (lines 190-191 and 234-235), or a write cut off part way, may already have put some or all of the entry's bytes on the network. The entry is then written again, so the network can see it twice. `wire` records only the write-and-flush calls that succeeded, and the "nothing duplicated" of `Drain.FlushKeepsOrder` and `Run` is about that record.
- `SocketWriter.TcpSocketWriter.constructor` models the background task up to its first connect. The task's call of `Run` is the method `Run`. The task's `finally`, which disposes the stream and signals `_disposed`, is not modelled.
- `SocketWriter.TcpSocketWriter.Run` returns an exception that escapes its write loop as `RunThrew(e)`. An exception that escapes the drain is returned as `Drained(FlushThrew(e))`: the drain catches only `SocketException` (line 239), so an `IOException` or any other exception from a drain write or flush (lines 234-235) leaves `FlushQueue` and then `Run`. The background task's catch (lines 130-133) reports either exception once more, and that report is not part of `Run`'s `notes`.
- A `Take` from an empty queue blocks in the source until it is cancelled. `Run` returns `TakeBlocked` instead.
- Runs with no end: `disposeAt`, `forceQuitAt` and `cancelAt` are natural numbers, so every modelled run reaches its cancellation. A writer that is never disposed runs forever in the source.
- `Queues.FixedSizeQueue`: the size is a `nat`. A negative `maxQueueSize` makes the source's take-while-too-long loop block forever.
- The `Log.Debug` and `Log.Error` calls, and the self-log messages, have no effect on the model.
- `ResolveAddress` and `ResolveIP` (DNS), the UDP sink and its overloads, and `FluentdJsonFormatter`: only the choice of the Fluentd formatter is modelled.
- `new Uri(s)` is a parameter of the configuration functions. Parsing a string into scheme, host and port is framework code.
- `Json.Escape`: the escape rules are assumed from Serilog's `JsonValueFormatter.WriteQuotedJsonString`, which is library code outside this model. The rules are: `\"`, `\\`, `\n`, `\r`, `\f` and `\t`, and `\u00XX` in upper-case hex for the other control characters. They are not taken from the modelled source.
- Strings are sequences of Unicode scalar values (Dafny `char`). A C# `string` is a sequence of UTF-16 code units, so a lone surrogate has no counterpart here. For well-formed text this changes nothing in `Sinks.ReplaceAll`, `Formatter.CamelCase` or `Json.Escape`.
- Serilog's value formatter (`JsonValueFormatter.Format`): every property value is a string and is written as a quoted JSON string. Numbers, booleans, null and structured values are not modelled.
- `Formatter.LogEvent`: the timestamp text (`ToString("o")`), the message rendered from its template and the exception's `ToString` are given as strings.
- `Formatter.CamelCase`, `Configuration.SchemeAccepted`: lower-casing is ASCII only. This is exact for the scheme test, whose letters are all ASCII with no culture-specific forms. For property keys, a non-ASCII first letter is kept as it is.
- `Formatter.Format`: an empty property key throws `IndexOutOfRangeException` in the source. The model requires non-empty keys, as Serilog's property names always are.
- `Formatter.NewLine` is `"\n"`. The source writes `TextWriter.NewLine`, which is platform-dependent.
- `Sinks.TcpSink.Emit`: the formatter is a function given to the sink. A formatter that throws is not modelled.
- The constructor `TCPSink(ipAddress, port, formatter)` called at NetworkLoggerConfigurationExtensions.cs line 47 does not exist in TCPSink.cs. `Configuration.TcpSinkAt` models only what that overload builds.
