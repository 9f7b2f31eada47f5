# Verified model of ndog's stream core

ndog joins network connections, standard input and output, subprocesses and databases through
*streams*, pairs of a byte reader and a byte writer. Most of it calls libraries; what it adds is a small
concurrent core that fans streams out, cross-wires, copies, frames and tears them down. This project
models that core in Dafny and proves properties of it for every input and every interleaving.

`dafny verify dfyconfig.toml` checks everything.

| file | what it models |
|---|---|
| `Fanout.dfy`, `FanoutTheorems.dfy` | stdin's `Fanout`: one producer, any number of `Tee` callers and readers, as a step system |
| `FanoutStall.dfy` | everything that can stop that fan-out |
| `FanoutObject.dfy` | the parts of `Write`, `Tee` and `Close` that run under the mutex, as an object with its loops |
| `Proxy.dfy`, `ProxyTheorems.dfy` | `ProxyStreamManager` with TCP on both sides: four copiers, two pipes, two connections, all closes |
| `ProxyLoss.dfy` | exactly when that proxy loses bytes it has read |
| `ProxyProgress.dfy` | delivery while a direction of the proxy is intact |
| `ProxyTeardown.dfy` | one TCP side of a proxy with anything at all on the other |
| `Scanning.dfy` | the `bufio.Scanner` loop over any split function |
| `Statements.dfy`, `StatementTheorems.dfy` | `splitStatements` and what a scan with it yields |
| `Csv.dfy`, `Postgres.dfy` | `rowsToCSV`, and the loop of the PostgreSQL `Connect` |
| `WebSocket.dfy` | messages to lines and back, and one direction of a WebSocket to WebSocket proxy |
| `WebSocketProgress.dfy` | what such a direction gets done while it is open, and at its end |
| `Closers.dfy`, `Exec.dfy` | the idempotent closers; closing, reaping, terminating and killing an exec stream |
| `Udp.dfy` | the UDP listener's demultiplexing |
| `Logging.dfy` | `streamWithLogging` |
| `Bytes.dfy` | bytes, concatenation, list pruning |

Concurrent parts are step systems: `Enabled` and `Apply` give the atomic steps of all goroutines and
of their environment, `CanRun` and `After` run any sequence of them, and the theorems quantify over all
sequences. Fields marked *history* are never read by `Enabled` and only serve to state properties.
Sequential parts are methods and classes with the source's loops and fields, tied by their
postconditions to functions about which the theorems are proved.

## What the model takes from the libraries

* `io.Pipe`: a write lasts until the reader has taken its last byte, and then succeeds, or until either
  end is closed, and then fails; after a close no byte passes; the reader of a pipe whose writer was
  closed gets EOF.
* A send in a `select` with a default case happens only if a receiver is already parked.
* `io.Copy` alternates reads and writes and passes no empty chunk on.
* A connection fails every read and write once closed, and may fail any of them before; a write on an
  open connection can make progress, and a dial returns, with a connection or an error.
* `bufio.Scanner` reads only when split finds nothing in the buffer, fails when the buffer is full, and
  calls split with `atEOF` after a read that brings no bytes. The size of the buffer is a parameter.
* Closing a closed channel panics; `cmd.Wait` returns after the process has exited and closes the
  parent's ends of its pipes first; closing a closed file is an error; timers do not fire early.
* `rows.Next` returns false at the end of an answer and also when the statement or the connection fails
  on the way; only `rows.Err` tells the two apart.
* The writer of a database session takes everything up to some byte and, having failed there, nothing
  more, as a pipe or a connection once closed does. How much it takes is a parameter.
* `ReadFrom` truncates a packet to the buffer, and `WriteTo` sends a chunk whole or fails. A writer does not
  keep the slice it is given.

## Findings

* A `Tee` that appends and sends while `Write` is between `Unlock` and the channel receive leaves the
  producer parked with a reader attached (`WakeUpCanBeLost`). It stays so until another `Tee` appends
  (`LostIsPermanent`); the next to send releases it, and every open reader then gets all of its suffix
  (`NextSendReleases`). As long as attached readers go on reading, this is the only way the fan-out stops
  early (`OnlyStopsParked`), and `LossHappensAtPark` gives the exact condition.
* One attached reader that neither reads nor closes stops everybody, as `Write` holds the mutex inside its
  pipe write (`ReaderCanStall`): until that reader acts no other receives a byte and no `Tee` gets in
  (`StallIsPermanent`). `HaltsExactly` lists all that can stop the fan-out.
* A `Tee` after `Close` still succeeds, and its reader waits for ever (`LateReaderWaitsForever`).
* A second `Close` of an end of an exec stream panics exactly if the first failed
  (`ClosePanicsExactly`), and the first can fail without any fault of the operating system, because
  `cmd.Wait` may close the file between its two halves (`CloseFailsExactly`). Two calls of `Stream.Close`,
  as the two copiers of `bidirectionalCopy` make, are enough (`DoubleCloseCanPanic`): they close the reader
  first, which spares the reader but not the writer (`ReaderFirstSparesReader`).
* A client that ends its sending direction loses replies still on their way (`HalfCloseLosesReply`), and,
  if the server answers before it has been sent all of it, its own request as well
  (`HalfCloseLosesRequest`), although no connection ever fails. `Dooms` is the exact condition, judged by
  the state before each step: a direction has lost something at its end if and only if such a step was
  taken (`StepDooms`, `EndLosesNothingExactly`). While both copiers of the other direction run and no
  connection breaks, none is (`SafeWhileOtherRuns`), and the direction ends only with everything its peer
  sent delivered (`HealthyEndDeliversAll`).
* A failed dial loses what was read from the client by then (`FailedDialLosesRequest`).
* `rowsToCSV` asks for `rows.Err` only inside its loop and discards the results of its writes. Its output
  falls short without an error in exactly two cases: the answer broke off between rows, or the writer
  failed (`RowsToCsv`, `BrokenSetIsSilent`, `FailedWriterIsSilent`). The session logs neither
  (`BrokenAnswerIsNotLogged`, `FailedWriterIsNotLogged`), and goes on executing statements.
* `Connect` never asks for `scanner.Err`: every statement is executed exactly if none is as long as the
  scanner's buffer, and otherwise the session ends at the first such statement as if the input had
  (`Postgres.Connect`, `OverlongStatementEndsSession`).
* A WebSocket message can be sent on cut short, at any byte, if the pipe is closed while it is on its way
  (`MessageCanBeCut`). `SentWholeExactly` says exactly when that has not happened.
* The EOF shortcut of `splitStatements` is exact only for data without a terminator
  (`EofShortcutExact`); the scanner never uses it on other data (`ScanStatement`), but a reader that
  returned its last bytes together with EOF would lose a split (`DataWithEofLosesSplit`).
* `rowsToCSV` does no quoting, unlike section 2 of RFC 4180; `Csv.RoundTripExact` says exactly which rows survive.

## Model

| member | source | states |
|---|---|---|
| FanoutTheorems.StepInv | internal/io.go:58-107 | every atomic step of `Write`, `Tee`, `Close` and of the readers keeps the invariant: open readers stay attached and in step, the list under reconstruction keeps its order, nobody holds the reader of an unfinished `Tee` |
| FanoutTheorems.RunInv | internal/stdio.go:20-31 | hence every run of one producer with any number of `Tee` callers and readers keeps it |
| FanoutTheorems.SuffixDelivery | internal/io.go:58-107 | a reader attached after k delivery loops has received a prefix of the chunks from k on; exactly those delivered since when the mutex is free and it is open or not yet pruned; all of them when it has seen EOF; an open reader is never pruned |
| FanoutTheorems.CloseEndsReaders | internal/io.go:58-66 | in every run, when the producer is through each open reader attached before `Close` has its whole suffix and sees EOF once its `Tee` has returned |
| FanoutTheorems.LateReaderWaitsForever | internal/io.go:58-107 | a `Tee` after `Close` can append, and its reader gets neither bytes nor EOF in any run |
| FanoutTheorems.ReceivedOnlyGrows | internal/io.go:80-86 | no step takes back or rewrites what a reader has received |
| FanoutTheorems.FinishPrunes | internal/io.go:79-88 | however it was interleaved, a delivery loop leaves the old list, in order, without exactly the pipes whose reader took less than the whole chunk, each of which has closed; every attached reader has some first part of it |
| FanoutTheorems.WakeFindsWriters | internal/io.go:71-87 | a `Write` that delivers, woken or not, has a non-empty list, and never finds the fan-out closed |
| FanoutTheorems.NoWindowSendNoLoss | internal/io.go:74-78 | if no `Tee` sends between `Unlock` and the receive, a parked `Write` with readers always has a `Tee` between append and send |
| FanoutTheorems.LostExactly | internal/io.go:74-104 | a wake-up is lost exactly if a send fell into the window of the parked `Write` and no `Tee` is still to send |
| FanoutTheorems.LossHappensAtPark | internal/io.go:76 | the only step that loses it is the receive, exactly when readers are attached and all have sent |
| FanoutTheorems.WakeUpCanBeLost | internal/io.go:74-106 | for every non-empty input, a run that loses the wake-up |
| FanoutTheorems.LostIsPermanent | internal/io.go:76 | from there no step but a further `Tee` changes anything: no chunk is delivered and no byte received |
| FanoutTheorems.NextSendReleases | internal/io.go:76-104 | when a `Tee` sends after the producer has parked, every open reader gets its whole suffix by internal steps alone, and in every run that leaves it open and goes on while an internal step is enabled |
| FanoutTheorems.OnlyStopsParked | internal/io.go:58-107 | as long as attached readers go on reading, in any other reachable state before the end some internal step is enabled: no other deadlock |
| FanoutStall.StallIsPermanent | internal/io.go:79-84 | while the reader a `Write` is writing to neither reads nor closes, over any run: no chunk is delivered, no other reader receives a byte, no `Tee` appends |
| FanoutStall.ReadEndsStall | internal/io.go:79-84 | the reader held up for can read any part of the chunk, gets it, and with the last of it is kept |
| FanoutStall.CloseEndsStall | internal/io.go:79-84 | or can close, and is left out |
| FanoutStall.ReaderCanStall | internal/io.go:68-106 | for every non-empty input, a run to such a state with one reader |
| FanoutStall.HaltsExactly | internal/io.go:58-107 | in a reachable state neither the producer nor any `Tee` can move if and only if no `Tee` is under way and it is the end of the input, nobody is attached to a parked `Write`, a wake-up is lost, or a reader holds back |
| FanoutTheorems.InternalStepsRunOut | internal/io.go:58-107 | every internal step lowers a lexicographic measure |
| FanoutTheorems.DeliversEverything | internal/io.go:58-107 | with an open reader and the producer outside its window, internal steps alone reach the end of the input, with the reader's whole suffix received and its pipe closed |
| FanoutTheorems.EveryScheduleDelivers | internal/io.go:58-107 | and so does every run, whatever other `Tee` callers and readers do in it, that leaves the reader open and that no internal step extends; the reader then gets EOF, unless its `Tee` came after `Close` |
| FanoutObject.Pipe.Write | internal/io.go:81-84 | a pipe write succeeds exactly if the pipe is open and its reader takes everything |
| FanoutObject.Fanout.Write | internal/io.go:68-89 | error on a closed fan-out with nothing changed; otherwise the new list is the pipes that took the chunk, in order, and each pipe received what its reader took of it |
| FanoutObject.Fanout.WriteOutcome | internal/io.go:79-88 | that outcome is the one `FinishPrunes` has for the interleaved loop |
| FanoutObject.Fanout.Deliver | internal/io.go:79-86 | the rebuild loop itself |
| FanoutObject.Fanout.Tee | internal/io.go:91-96 | the new pipe is open, empty and last |
| FanoutObject.Fanout.Close | internal/io.go:58-66 | every writer is closed, none changed otherwise |
| Bytes.SurvivorsAreFlagged | internal/io.go:79-87 | pruning keeps exactly the flagged writers |
| Bytes.SurvivorsInside | internal/io.go:79-87 | and none twice, and adds none |
| ProxyTheorems.StepInv | internal/schemes/tcp/tcp.go:95-118 | every step of the four copiers, their deferred closes, the dial and the peers keeps the invariant |
| ProxyTheorems.Conservation | internal/proxy.go:17-48 | in both directions, delivered is a prefix of consumed, and exactly as long as no write failed the rest is the copier's unwritten bytes, the pipe's unread bytes and the unoffered chunk, in order |
| ProxyProgress.IntactNeverStuck | internal/schemes/tcp/tcp.go:95-118 | while both copiers of a direction run and its pipe and connections are open, bytes on their way or sent and unread can be carried on |
| ProxyProgress.RunData | internal/schemes/tcp/tcp.go:108-114 | what was read and what is still unread is, in order, what the peer sent |
| ProxyProgress.IdleHasDelivered | internal/proxy.go:17-48 | in any run, an intact direction with nothing to carry on has delivered everything its peer has sent so far, in order |
| ProxyProgress.IntactDelivers | internal/proxy.go:17-48 | and its own moves alone bring it there from any reachable point at which it is intact |
| ProxyProgress.WaitsExactly | internal/schemes/tcp/tcp.go:95-118 | a copier of an intact direction waits exactly if it has nothing to read, the pipe still holds its chunk, or the pipe it reads is empty |
| ProxyProgress.HealthyEndDeliversAll | internal/schemes/tcp/tcp.go:108-114 | while no connection breaks and the other direction runs, a direction's first copier ends only having read everything its peer sent up to its end, and once the second has ended all of it was delivered |
| ProxyProgress.EndDeliversAllExactly | internal/schemes/tcp/tcp.go:95-118 | at the end of a direction everything its peer sent was delivered if and only if no step doomed any and nothing was left unread |
| ProxyProgress.BreakLeavesUnread | internal/schemes/tcp/tcp.go:108-114 | a run in which a connection breaks and nothing is doomed but data is left unread |
| ProxyLoss.StaysDoomed | internal/proxy.go:17-48 | bytes in front of or in a closed pipe, or bound for a closed connection, or dropped, stay lost whatever happens |
| ProxyLoss.StepDooms | internal/schemes/tcp/tcp.go:97-117 | a direction gets into that state exactly by reading a chunk whose pipe is closed, by a connection breaking under a chunk, or by a close hitting a pipe or a connection with bytes on the way |
| ProxyLoss.RunDooms | internal/schemes/tcp/tcp.go:97-117 | over any run, it is in that state if and only if it was before or some step of the run was of that kind |
| ProxyLoss.EndLosesNothingExactly | internal/schemes/tcp/tcp.go:97-117 | once both copiers of a direction have ended, everything read was delivered if and only if no step of the run was of that kind |
| ProxyLoss.DoomedIsLost | internal/schemes/tcp/tcp.go:97-117 | a direction once in that state ends with less delivered than read |
| ProxyLoss.SafeWhileOtherRuns | internal/schemes/tcp/tcp.go:95-118 | while no connection breaks and both copiers of the other direction run, a direction loses nothing |
| ProxyLoss.HalfCloseLosesReply | internal/schemes/tcp/tcp.go:97-110 | a run without any connection failure in which a reply is read and lost because the client ended its sending direction |
| ProxyLoss.HalfCloseLosesRequest | internal/schemes/tcp/tcp.go:97-117 | one in which the server answers early and the client's own request, already read, is lost |
| ProxyLoss.FailedDialLosesRequest | internal/proxy.go:39-48 | a run in which the dial fails and what was read from the client is lost in the pipe |
| ProxyLoss.BreakLosesTail | internal/schemes/tcp/tcp.go:97-105 | any tail of a request can be lost to a connection that breaks while it is written |
| ProxyTheorems.StaysClosed | internal/stream.go:15-19 | no step reopens a pipe end or a connection |
| ProxyTheorems.ClosedConnIsSilent | internal/schemes/tcp/tcp.go:98-108 | over any run, nothing is read from or written to a connection after it is closed |
| ProxyTheorems.ClosedPipeIsSilent | internal/proxy.go:17-18 | over any run, nothing comes out of a pipe after either end is closed |
| ProxyTheorems.EndedSideWinds | internal/schemes/tcp/tcp.go:98-99 | a copier that is done has closed its side's reader, writer and connection, which winds its side down |
| ProxyTheorems.WindingStep | internal/schemes/tcp/tcp.go:95-118 | while a side winds down each of its steps lowers a measure and nobody else's step raises it, but for what its peer sends on an open connection |
| ProxyTheorems.WindingNeverStuck | internal/schemes/tcp/tcp.go:95-118 | until both its copiers are done one of them has a step to take, whatever is on the other side |
| ProxyTheorems.WindingIsBounded | internal/schemes/tcp/tcp.go:117 | so `Wait` returns after a bounded number of the side's own steps, over any run |
| ProxyTeardown.SideEnds | internal/schemes/tcp/tcp.go:95-118 | once the pipe a TCP side reads from is closed, with anything at all on the other side and whatever that goes on to do, the side takes a bounded number of steps and is never stuck before both its copiers are done |
| ProxyTeardown.ConnectReturnEndsListenSide | internal/proxy.go:39-48 | when `Connect`, of any scheme, has returned for any reason, having read and written whatever it liked, closing `connectWriter` alone ends the listen side |
| ProxyTeardown.ConnectCanLeaveCopierBlocked | internal/proxy.go:39-48 | and it is reached with the other copier blocked on `listenWriter`, whose reader stays open |
| ProxyTeardown.StepHappens | internal/schemes/tcp/tcp.go:95-118 | a second TCP side, with its dial, is one of the things that can be on the other side |
| ProxyTeardown.TcpReturnEndsListenSide | internal/proxy.go:39-48 | so the same holds when TCP's `Connect` returns, from a failed dial or after both its copiers |
| ProxyTheorems.NeverStuck | internal/proxy.go:17-50 | once any copier has ended or the dial failed, no reachable state is stuck before all copiers are done |
| ProxyTheorems.StepMeasure | internal/schemes/tcp/tcp.go:95-118 | every step of anyone, except a peer sending, lowers a global measure |
| ProxyTheorems.RunIsBounded | internal/schemes/tcp/tcp.go:95-118 | so the length of any run is bounded by what the peers send |
| ProxyTheorems.EveryRunEnds | internal/proxy.go:17-50 | once anything has ended, every run is bounded but for what the peers still send, and one the program cannot extend has all copiers done |
| Scanning.Scanner.Scan | internal/schemes/postgresql/postgresql.go:61-64 | one `Scan` yields the next token of the input whatever the reads were, and calls split at EOF only on a buffer without a token |
| Scanning.ScanAll | internal/schemes/postgresql/postgresql.go:61-64 | the whole loop yields the tokens of the input, independently of the sizes of the reads |
| Scanning.FullBufferIsTooLong | internal/schemes/postgresql/postgresql.go:61-64 | a full buffer without a token fails whatever follows |
| Scanning.LimitOnlyTruncates | internal/schemes/postgresql/postgresql.go:61-64 | a smaller buffer can only cut the scan short |
| Scanning.FirstFittingIsAll | internal/schemes/postgresql/postgresql.go:61-64 | the tokens before the first that does not fit are all tokens exactly if all fit |
| Statements.SplitStatements | internal/schemes/postgresql/postgresql.go:142-167 | off EOF the least position with ';', an even run of backslashes before it and an even number of unescaped quotes before it; more data exactly if there is none; at EOF everything |
| Statements.TerminatorLocal | internal/schemes/postgresql/postgresql.go:151-164 | more data never changes whether a position is a terminator |
| Statements.SplitStable | internal/schemes/postgresql/postgresql.go:149-166 | more data never changes a split already found |
| Statements.SplitWellBehaved | internal/schemes/postgresql/postgresql.go:142-167 | `splitStatements` meets what the scanner needs, for all data |
| StatementTheorems.SplitBytes | internal/schemes/postgresql/postgresql.go:149-166 | escaped and quoted semicolons, byte for byte |
| StatementTheorems.JoinAfterParse | internal/schemes/postgresql/postgresql.go:149-166 | conservation: putting ';' back after each terminated statement restores the input |
| StatementTheorems.ParseAfterJoin | internal/schemes/postgresql/postgresql.go:149-166 | round trip: joined statements come back exactly when each ends at top level without a terminator inside and the tail has none |
| StatementTheorems.StatementsAreParts | internal/schemes/postgresql/postgresql.go:142-148 | what is yielded is the terminated statements and then the tail unless it is empty |
| StatementTheorems.TokensAreStatements | internal/schemes/postgresql/postgresql.go:61-64 | a scan yields the statements up to the first as long as the buffer, and fails exactly if there is one |
| StatementTheorems.ScanStatements | internal/schemes/postgresql/postgresql.go:61-64 | the loop computes that, for any read sizes |
| StatementTheorems.ShortInputFits | internal/schemes/postgresql/postgresql.go:61-64 | with room for the whole input nothing is cut short |
| StatementTheorems.FinitelyManyTokens | internal/schemes/postgresql/postgresql.go:63-64 | there are no more tokens than bytes |
| StatementTheorems.EofShortcutExact | internal/schemes/postgresql/postgresql.go:143-148 | taking the data whole at EOF gives its statements if and only if it has no terminator |
| StatementTheorems.ScanStatement | internal/schemes/postgresql/postgresql.go:63-64 | and split is called at EOF only on such data |
| StatementTheorems.DataWithEofLosesSplit | internal/schemes/postgresql/postgresql.go:143-148 | the input that would lose a split if it came together with EOF |
| StatementTheorems.RunGathers | internal/schemes/postgresql/postgresql.go:149-163 | the two flags are the parities of the backslash run and of the unescaped quotes |
| StatementTheorems.AutomatonParses | internal/schemes/postgresql/postgresql.go:149-163 | an automaton that never starts again yields the same statements |
| StatementTheorems.RescanEqualsSinglePass | internal/schemes/postgresql/postgresql.go:61-64 | chunk independence: rescanning equals the automaton with its state carried from read to read, for any division into chunks and any buffer size |
| Csv.WriteRow | internal/schemes/postgresql/postgresql.go:131-137 | values separated by commas and ended by a newline, as far as the writer takes them |
| Csv.EncodedBytes | internal/schemes/postgresql/postgresql.go:131-137 | two rows, byte for byte |
| Csv.GoodStops | internal/schemes/postgresql/postgresql.go:122-129 | the rows before the first bad row are fewer than all rows exactly if there is a bad one |
| Csv.GoodBeforeError | internal/schemes/postgresql/postgresql.go:121-129 | exactly the rows before the first bad one are output |
| Csv.RowsToCsv | internal/schemes/postgresql/postgresql.go:119-140 | outputs the encoding of the rows before the first bad row as far as the writer takes it, and fails exactly if there is a bad row; without an error the output falls short exactly if the answer broke off or the writer failed |
| Csv.BrokenSetIsSilent | internal/schemes/postgresql/postgresql.go:121-124 | whatever rows came before the break, the output is a strict prefix of what it should be and looks like a complete answer |
| Csv.FailedWriterIsSilent | internal/schemes/postgresql/postgresql.go:131-137 | nor does a writer that takes nothing of an intact answer cause an error |
| Csv.CutAfterJoin | internal/schemes/postgresql/postgresql.go:131-136 | cutting undoes joining exactly if there is a piece and none holds the separator |
| Csv.DecodedIsDecodable | internal/schemes/postgresql/postgresql.go:119-140 | decoding any output gives rows with fields free of commas and newlines |
| Csv.RoundTripExact | internal/schemes/postgresql/postgresql.go:119-140 | the output decodes to the rows if and only if every row has a field and none holds a comma or a newline |
| Csv.EncodeAfterDecode | internal/schemes/postgresql/postgresql.go:119-140 | any bytes are the encoding of the rows they decode to and then a line without its newline |
| Csv.RoundTripTaken | internal/schemes/postgresql/postgresql.go:119-140 | with a writer that may fail, the output decodes to the rows if and only if it took everything and every row is decodable |
| Postgres.Connect | internal/schemes/postgresql/postgresql.go:59-81 | a session outputs the rows of its statements that succeed, in order, as far as the writer takes them, whatever the read sizes, whichever statements fail and whatever an answer depends on; the output can be read back to those rows exactly if the writer took all and each is decodable; an error is logged for exactly the statements whose query or row failed; all statements are executed exactly if each fits the scanner's buffer |
| Postgres.AllRowsAreTables | internal/schemes/postgresql/postgresql.go:66-80 | its rows are the tables the statements were answered with, one after the other; a failed query adds none |
| Postgres.Execute | internal/schemes/postgresql/postgresql.go:64-80 | one statement: its rows are appended to the output; a failed query adds no byte and is logged |
| Postgres.BrokenAnswerIsNotLogged | internal/schemes/postgresql/postgresql.go:66-80 | an answer that breaks off between rows contributes fewer rows than it should and nothing to the log |
| Postgres.FailedWriterIsNotLogged | internal/schemes/postgresql/postgresql.go:66-80 | nor does a failed writer, whatever the statements: the output is a strict prefix and the log empty |
| Postgres.OverlongStatementEndsSession | internal/schemes/postgresql/postgresql.go:61-82 | a statement as long as the buffer ends the session as the end of the input would, and nothing after it is executed |
| WebSocketLines.ScanLinesWellBehaved | internal/schemes/websocket/websocket.go:212-213 | the default split function meets what the scanner needs |
| WebSocketLines.TokensAreLines | internal/schemes/websocket/websocket.go:212-213 | a scan yields the lines of the stream up to the first that, with its carriage return, is as long as the buffer, and fails exactly if there is one |
| WebSocketLines.CrLfLine | internal/schemes/websocket/websocket.go:212-214 | a line ending in carriage return and newline is the line without them |
| WebSocketLines.RoundTripExact | internal/schemes/websocket/websocket.go:200-214 | messages come back from the stream exactly when none contains a newline or ends in a carriage return |
| WebSocketLines.PrefixDecodes | internal/schemes/websocket/websocket.go:200-214 | any byte prefix of the encoded messages decodes to a prefix of them but for the last, which may be cut |
| WebSocketLines.CompletePrefixDecodes | internal/schemes/websocket/websocket.go:200-214 | a prefix ending in a newline loses only whole messages |
| WebSocketLines.WholeMessagesExactly | internal/schemes/websocket/websocket.go:200-214 | a prefix decodes to whole messages if and only if it ends in a newline or right before one |
| WebSocketLane.StepInv | internal/schemes/websocket/websocket.go:191-226 | every step of reader, pipe, scanner and sender keeps the accounting of the stream |
| WebSocketProgress.IdleHasSent | internal/schemes/websocket/websocket.go:191-226 | in any run, an open lane with nothing to carry on has sent every message it received, whole and in order |
| WebSocketProgress.OpenDelivers | internal/schemes/websocket/websocket.go:191-226 | and its own steps alone bring it there |
| WebSocketProgress.StepMeasure | internal/schemes/websocket/websocket.go:191-226 | every step except a close and the receiving of a message lowers a measure |
| WebSocketProgress.WaitsExactly | internal/schemes/websocket/websocket.go:191-226 | the reader of an open lane waits only for its connection and for the pipe, the sender only for data |
| WebSocketProgress.OrderlyEndSendsAll | internal/schemes/websocket/websocket.go:187-226 | when the pipe was closed only after the reader had ended and no send failed, an ended sender has sent every message |
| WebSocketProgress.OrderlyRun | internal/schemes/websocket/websocket.go:187-226 | a run to such an end |
| WebSocketProgress.ClosedNeverStuck | internal/schemes/websocket/websocket.go:187-226 | after a close of the pipe a goroutine still in its loop, but for one in `ReadMessage`, has a step to take |
| WebSocketProgress.FailedSendLosesMessage | internal/schemes/websocket/websocket.go:214-220 | a run in which a send fails and its message is lost |
| WebSocketLane.SentIsDecodedPrefix | internal/proxy.go:17-32 | in every reachable state, for any messages, what was sent is the lines of a first part of the encoded stream |
| WebSocketLane.SentIsCutOfReceived | internal/schemes/websocket/websocket.go:191-226 | at any teardown point the payloads sent are a prefix of those received, except that the last may be a prefix of its message, and only after the pipe's end was seen |
| WebSocketLane.SentWholeExactly | internal/schemes/websocket/websocket.go:191-226 | no message sent was cut if and only if the stretch of the stream sent is empty, ends in a newline, or ends where a message ends |
| WebSocketLane.MessageCanBeCut | internal/schemes/websocket/websocket.go:191-226 | any message can be sent on cut at any byte, by a close of the pipe at that moment |
| Closers.FuncCloser.Close | internal/io.go:117-128 | calls the close function unless closed, returns its error, and sets the flag only on success |
| Closers.UpToFirstSuccessIs | internal/io.go:145-156 | the calls made are failures, then at most one success, then none |
| Closers.CloseRepeatedly | internal/io.go:117-156 | any number of `Close` calls runs the close function until its first success and never again |
| ExecSystem.StepInv | internal/exec.go:63-110 | every step of closers, reaper, watcher, process and clock keeps the invariant |
| ExecSystem.CloseSignalling | internal/exec.go:63-110 | `cmd.Wait` is entered only after both signals; a channel is closed twice only after a failed close, and that is the only panic |
| ExecSystem.NoFailureNoPanic | internal/exec.go:99-110 | if the underlying closes return nil no channel is closed twice |
| ExecSystem.ClosePanicsExactly | internal/exec.go:99-110 | a `Close` call panics if and only if an earlier one on that end failed |
| ExecSystem.CloseFailsExactly | internal/exec.go:94-108 | with a healthy operating system a close fails exactly if `cmd.Wait` has closed the file first |
| ExecSystem.DoubleCloseCanPanic | internal/schemes/tcp/tcp.go:95-118 | a run of two `Stream.Close` calls, with a healthy operating system, in which that happens to stdin and the second call panics |
| ExecSystem.SystemErrorCanPanic | internal/exec.go:99-110 | on either end, an error from the underlying close makes the next `Close` close the channel twice |
| ExecSystem.ReaderFirstSparesReader | internal/stream.go:15-19 | closing the reader before the writer, as `Stream.Close` does, on a healthy system the reader's close never fails nor panics; only the writer's can |
| ExecSystem.SignalsInOrder | internal/exec.go:75-91 | no signal before both ends are closed and ten seconds have passed, SIGKILL only ten seconds after SIGTERM, at most one of each |
| ExecSystem.TimersFire | internal/exec.go:75-91 | ten seconds after its start either timer can fire, and sends its signal |
| ExecSystem.ReapedEndsWatcher | internal/exec.go:80-89 | once the process is reaped the watcher can leave either timer at once, sending nothing, and everything is final |
| ExecSystem.QuickExitIsQuiet | internal/exec.go:65-96 | a process that exits within the first ten seconds is sent nothing: until the clock moves on no run sends a signal, and none stops before reaper and watcher are done |
| ExecSystem.StepMeasure | internal/exec.go:65-96 | every step but a `Close` and an idle tick lowers a measure |
| ExecSystem.ReachesTheEnd | internal/exec.go:65-96 | from the second close on, over any run: a bounded number of steps other than `Close` calls and idle ticks, and until reaper and watcher are done, or a double close has panicked, one of them is enabled, the exit of the process only after SIGKILL |
| ExecSystem.StopsOnlyFinal | internal/exec.go:65-96 | so a run that none of these steps extends has both done |
| Udp.Listener.ReadFrom | internal/schemes/udp/udp.go:44 | the packet, or the first 65535 bytes of a longer one, overwrites the front of the buffer and nothing else |
| Udp.Listener.StreamFor | internal/schemes/udp/udp.go:54-64 | the stream of an address, created on its first packet only |
| Udp.Listener.HandlePacket | internal/schemes/udp/udp.go:43-71 | exactly the packet's bytes go to its address's stream, or the listener fails |
| Udp.Listener.HandleReply | internal/schemes/udp/udp.go:63 | a reply goes to the address that created its stream, and the copier ends if it cannot be sent |
| Udp.Listener.Serve | internal/schemes/udp/udp.go:43-72 | the loop keeps the state a filter of the trace, up to the first failing writer or failing `ReadFrom` |
| Udp.Listen | internal/schemes/udp/udp.go:27-72 | for every trace: one stream per distinct address in order of arrival, its writer holding the payloads of that address's accepted packets, as sent unless longer than 65535 bytes, in order; every reply sent to the stream's address up to the first that cannot be sent; up to the first failing writer or failing `ReadFrom`, and no error exactly if that failed with `io.EOF` or `net.ErrClosed` itself |
| Udp.PayloadsAreAccepted | internal/schemes/udp/udp.go:44-67 | without longer packets, what a writer holds is the concatenation of the payloads themselves |
| Udp.ReceivedIs | internal/schemes/udp/udp.go:36-44 | a longer packet contributes exactly its first 65535 bytes |
| Udp.ArrivalsAreDistinct | internal/schemes/udp/udp.go:55-62 | every address that sent a packet has a stream, and only one |
| Udp.ArrivalsOnlyGrow | internal/schemes/udp/udp.go:55-62 | a stream keeps its place |
| Udp.HandledIs | internal/schemes/udp/udp.go:45-70 | the loop handles everything, or everything up to the first event that ends it |
| Logging.LoggedStream.Log | internal/stream.go:51-70 | a logger receives a write in pieces of at most its buffer that concatenate to it |
| Logging.LoggedStream.Read | internal/io.go:165-172 | a read returns what the stream returns, logged first |
| Logging.LoggedStream.Write | internal/io.go:174-186 | a write does what the stream does, logged only if it succeeds |
| Logging.RunLogged | internal/stream.go:48-75 | for any sequence of operations the results and the stream are those without logging, the read log is the bytes read, the write log the data of the successful writes |
| Logging.WrittenIsSink | internal/stream.go:71-74 | if no write falls short that is what the stream holds |
| Logging.NothingUnaccounted | internal/stream.go:71-74 | bytes read and bytes left make up the input |
| Logging.NothingAfterClose | internal/stream.go:71-74 | after a close every read and write fails and moves no byte |
| Logging.OpenStep | internal/stream.go:71-74 | before it a read returns what there is and a write that succeeds takes everything |

## Left out

- Goroutines are steps on values, not Dafny objects: aliasing between goroutines is not modelled, and what one holding a mutex does is either spread over steps (`FanoutSystem`) or one method (`FanoutObject`), not both at once.
- FanoutObject.Fanout.Write: the pipes appended while it waits and what each reader takes are parameters of the call; what other threads can do to a `Write` at any point is in `FanoutTheorems`, and `WriteOutcome` says that the outcomes agree.
- `CloseWriters`, which has no caller.
- The fixed-data branch of `StdIOStreamManager`: a fresh copy of the same bytes for every stream.
- The repeated closes after `Wait` in the TCP and WebSocket handlers: every flag they set is already set.
- `rowsToJSON` and all other JSON; rendering of values with `%v`.
- UDP `Connect`; UDP timeouts, which the source leaves to do.
- The second copy of the exec stream's output to `TeeWriter`, and the logging of stderr.
- The WebSocket handshake, frame types and ping/pong: a connection is a list of messages.
- HTTP, SSH, DNS, TLS, certificate generation, command line, log output, scheme registry: library calls or user interface, or small functions that would add only easy members.
- Real clocks and processes: time is a counter, and the exit of a process is a step.
