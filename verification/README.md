# Verified model of Project Ikaros

Project Ikaros is a multi-protocol server framework in C++: a main thread multiplexes sockets with
`select`, a worker thread dispatches queued events to a protocol library, and the libraries (HTTP, FTP,
SMTP) parse what arrives. This project models the parts of it that hold real state machines, cursor
arithmetic or parsers, and proves properties of them that span functions and whole runs.

`dafny verify dfyconfig.toml` checks everything.

## What is modelled

- **Scheduler** (`Clock`, `Handler`, `HandlerRuns`, `DelayTiming`, `Wakeup`): the immediate queue, the
  list of delayed events with its push-then-sweep pass, the worker loop, the countdown arithmetic, and
  the parking protocol between the worker and the main thread as an interleaving of single accesses.
- **Buffer** (`BinData`, `TypedData`, `Lines`): `BinnaryData` as a class over an array with both
  cursors; typed integers; line reading.
- **HTTP** (`Http`, `FileAddress`): the request parser on top of the buffer, and the split of the
  requested file.
- **FTP** (`FtpScript`, `FtpTransfer`, `FtpAddress`, `FtpDirectory`, `FtpSession`, `FtpCommands`, `FtpLogin`,
  `FtpAnswers`, `FtpWorkDir`): the nested send loops and what each script of kernel replies makes of them, the
  PORT/PASV address format, the working directory, and the command machine with its login and its answers.
- **SMTP** (`Smtp`): the per-descriptor sessions and the collection of message bodies.
- **Main loop** (`SocketMgr`, `MainLoop`, `LibraryView`, `LibraryEvents`): the ordered socket map with deferred
  close, the descriptor set, and what the protocol library is told of the connections and of what they send.

Objects that the source updates in place are classes whose methods are tied to functions on values; the
theorems over runs are stated about those functions. The operating system is a parameter: replies of
`send`, results of `select`, `accept` and `recv`, readings of the clock, answers of the file system and
the user database are arbitrary values, bound only by what the system call promises. `npos` is -1, so
that `npos + 1` is 0 and negative counts stand for huge ones, as they do in 64-bit arithmetic.

## Where the code does something other than expected

The model follows the code. These are stated and proved as they are:

- The sweep of the delayed list skips the event behind an erased head, so an event that expires second
  behind an expired head is delivered twice, and only such an event is (`HandlerRuns.DeliveredOnceOrTwice`,
  `HandlerRuns.SecondDeliveredTwice`).
- A tick is longer than the time it measures exactly when its microsecond part is borrowed and no whole
  number of milliseconds (`Clock.TickExactly`), so an event can be delivered early: one with a delay of a
  millisecond after one microsecond (`DelayTiming.DeliveredEarly`). It is due exactly when the time its
  passes account for, roundings included, reaches its delay (`DelayTiming.DeliveryExactly`).
- A wakeup can be lost, because the emptiness test and the status store are separate statements and a
  signal sent before the worker waits is consumed by its handler; it cannot exactly when both are
  repaired (`Wakeup.NoLostWakeup`, `Wakeup.WakeupLostAsWritten`).
- An active file transfer reads on after a short send, so what was left of the chunk is lost; it delivers
  in order whatever the file holds exactly when nothing is accepted after such a chunk
  (`FtpTransfer.ActiveFileDelivery`, `FtpTransfer.ActiveFileDropsByte`). Response 226 is sent after every
  end but a vanished peer or a refused connection, also after an error, and an abort raised behind the
  last chunk adds 426 to it (`FtpTransfer.SendData`). In active mode every length is cut to
  16 bits: from memory a transfer can complete exactly when data and segment are not empty and one of them
  is below 65536, and it can send anything at all exactly when its first length is not a multiple of 65536
  (`FtpTransfer.ActiveMemoryCompletes`, `FtpTransfer.CutLengths`).
- CDUP leaves the directory without its final slash, and a relative name entered then is glued to the
  last one (`FtpDirectory.RefinesStackOfNames`).
- A PASS line without a blank is itself the password (`FtpSession.PasswordNeverEmpty`), and with nothing behind
  the blank the verb is checked as one (`FtpAnswers.PassAnswers`).
- CWD with an absolute path, or with "..", changes the directory even if the new one does not exist and the
  answer is 550 (`FtpAnswers.CwdAnswers`). MKD alone takes a name with a leading slash from the working
  directory (`FtpAnswers.FileAnswers`).
- On a passive connection whose accept failed, a chunk is retried or given up depending on an error left over
  from an earlier call (`FtpScript.BadDescriptorOutcome`).
- An FTP connect keeps the session of a descriptor that was not ended before, so a client can be served on
  the login of the one before it (`FtpLogin.LoginOutlivesConnect`, `FtpLogin.OldLoginServes`,
  `FtpLogin.OldLoginWitness`); it never happens exactly when every connect finds a session that is neither
  prompted nor logged in (`FtpLogin.LoginsBelongToConnections`).
- An SMTP word that is no command does again what the last command did, with the new argument; the host that
  HELO sets ends in a carriage return (`Smtp.OtherWordsRepeat`, `Smtp.HeloSetsHost`).
- An SMTP connect keeps a body that was half received, which breaks the session invariant
  (`Smtp.InvStep`, `Smtp.InvariantOverRuns`).
- Each chunk of a message body is a C string, so a NUL hides what follows it in its chunk. A message whose
  first terminator has a NUL before its end is lost or cut in some chunkings; one without is stored in all
  (`Smtp.EverySplitStoresMessage`, `Smtp.NulHidesTerminator`).
- A header field that is continued on further lines is parsed line by line: a line with a colon becomes a
  field of its own, a blank one ends the headers, any other is dropped. The fields are recovered exactly
  when only the last one is continued, by blank lines (`Http.FoldsRecovered`, `Http.OneFieldRecovered`,
  `Http.FoldedValueTorn`).
- A socket dropped because its descriptor is bad is closed without a disconnect event. So a connect meets a
  session that was not ended exactly when its descriptor was last dropped that way, or is still in the map
  (`LibraryView.LibraryKnows`, `LibraryView.ConnectMeetsBadDrop`, `LibraryView.ConnectsClean`,
  `LibraryView.ConnectWithoutEnd`).
- A '/' in the query moves the cut between path and name into the query
  (`FileAddress.SplitsURIUnlessSlashInQuery`).

## Model

| member | source | states |
|---|---|---|
| Text.ToLower | Protocol/HTTP/Adds.cpp:67-74 | the in-place loop folds every character to what the case folding function gives, and no other |
| Text.TrimInPlace | Protocol/HTTP/Adds.cpp:76-85 | the two erasures with the early return compute the trimmed string |
| Text.TrimParts | Protocol/HTTP/Adds.cpp:76-85 | trimming only takes white space, and only off the two ends |
| Text.TrimUnique | Protocol/HTTP/Adds.cpp:76-85 | any split into white space, a middle without white space at its ends, and white space is the one trimming makes |
| Text.TrimsAround | Protocol/HTTP/Adds.cpp:76-85 | the characters trimmed are exactly the blank, the two line ends and the tabulator |
| Text.LowerLetters | Protocol/HTTP/Adds.cpp:67-74 | the 26 capitals fold to the small letters at their places, and nothing else changes |
| Text.FoldsTo | Protocol/HTTP/Adds.cpp:67-74 | a word folds to a small one exactly when it is that word letter by letter in either case |
| Clock.TickError | Utilities/Utils.cpp:30-40 | on a clock that does not run backwards a tick is not negative and differs from the elapsed time by at most 999 microseconds |
| Clock.TickExactly | Utilities/Utils.cpp:30-40 | the tick's exact error; it runs ahead exactly when the microsecond part is borrowed and no whole number of milliseconds |
| Clock.TickCanRunAhead | Utilities/Utils.cpp:30-40 | one microsecond can count as a millisecond |
| Handler.PacketHandler.PushExpired | Handling/Handler.cpp:37-42 | the first loop counts every event down by its own reading and pushes exactly the expired ones, in order |
| Handler.PacketHandler.Sweep | Handling/Handler.cpp:44-51 | the erase-and-restart loop terminates and leaves the closed form: with two or more events and an expired head, the second event and the unexpired of the rest; otherwise the unexpired |
| Handler.PacketHandler.UpdateDelayed | Handling/Handler.cpp:32-52 | one pass is one scheduler step |
| Handler.PacketHandler.AddEvent | Handling/Handler.cpp:22-25 | appends to the immediate queue and changes nothing else |
| Handler.PacketHandler.AddDelayedEvent | Handling/Handler.cpp:27-30 | appends to the delayed list and changes nothing else |
| Handler.PacketHandler.Terminate | Handling/Handler.cpp:54-63 | empties both queues and stops the loop |
| Handler.PacketHandler.DispatchFront | Handling/Handler.cpp:90-136 | hands exactly the front event to its callback, if the library has one, and removes it |
| Handler.PacketHandler.ProcessQueue | Handling/Handler.cpp:75-140 | any stretch of worker turns, with arrivals in between, does what the turns' steps do one after the other; the calls made are the dispatched events that have a callback; it stops early only after Terminate |
| Handler.HandledExactly | Handling/Handler.cpp:93-135 | an event reaches its callback as often as it is dispatched if its type is one of the eight and has a callback, and never otherwise |
| Handler.HandledBoth | Handling/Handler.cpp:90-136 | callbacks are made in the order of the dispatches |
| HandlerRuns.FifoConservation | Handling/Handler.cpp:22-25 | over every run until termination, the events dispatched followed by the queue are the whole push history, direct and expired, in order |
| HandlerRuns.TerminateDropsAll | Handling/Handler.cpp:54-63 | behind a Terminate in any run, both queues are empty and the loop has stopped; all that is dispatched later was pushed later, and the loop stays stopped |
| HandlerRuns.TurnPushes | Handling/Handler.cpp:75-140 | one turn of the worker pushes what arrives directly and what its pass finds expired, in that order, and dispatches the front event |
| HandlerRuns.OneEventATurn | Handling/Handler.cpp:75-140 | over any turns without a Terminate, the worker dispatches what was queued in order, one event a turn, whatever arrives meanwhile |
| HandlerRuns.ExpiredInOrder | Handling/Handler.cpp:37-42 | what a pass pushes is exactly the events whose countdown is used up, in the order of the list |
| HandlerRuns.OnlyTheHeadSurvivesExpired | Handling/Handler.cpp:44-51 | at most one expired event survives a sweep: the former second event, now the head, behind an expired head |
| HandlerRuns.PushesOnce | Handling/Handler.cpp:37-42 | of distinct list nodes, a pass pushes each one it finds expired once and no other |
| HandlerRuns.DeliveredOnceOrTwice | Handling/Handler.cpp:32-52 | over every run, an event that left the list was pushed to the queue once, or twice exactly when the pass that first pushed it found it second behind an expired head; none leaves without |
| HandlerRuns.SecondDeliveredTwice | Handling/Handler.cpp:32-52 | a run in which that happens: two events due at once, the second pushed twice |
| DelayTiming.RemainingDelay | Handling/Handler.h:64 | after any passes the remaining delay is the delay less the sum of ticks, cut at zero |
| DelayTiming.TicksMeasureTime | Handling/Handler.cpp:39 | the sum of ticks is the elapsed time, less what passes between measuring and stamping, up to 999 microseconds a pass on either side |
| DelayTiming.OneInstantMeasuresAll | Handling/Handler.h:64 | when a pass reads one instant, nothing goes unmeasured |
| DelayTiming.OneInstantError | Handling/Handler.cpp:39 | so the sum of ticks is then the elapsed time up to 999 microseconds a pass |
| DelayTiming.LifeTracks | Handling/Handler.cpp:37-42 | over every run, an event in the list is the one added, aged by what the passes over it have read |
| DelayTiming.TicksExactly | Handling/Handler.cpp:39 | the sum of ticks is exactly the elapsed time, less what went unmeasured, plus what the passes rounded up |
| DelayTiming.DeliveryExactly | Handling/Handler.cpp:37-42 | in every run, a pass delivers an event of the list exactly when that sum has reached its delay |
| DelayTiming.NeverEarly | Handling/Handler.cpp:37-42 | in every run, a delivery comes at least 1000 * delay - 999 * passes microseconds after the event was added |
| DelayTiming.DeliveredEarly | Handling/Handler.cpp:37-42 | a run that delivers an event with a delay of one millisecond one microsecond after it was added |
| DelayTiming.NeverOverdue | Handling/Handler.cpp:37-42 | an event still counting down has seen less than its delay, up to rounding and unmeasured time |
| Wakeup.NoLostWakeup | Handling/Handler.cpp:79-85 | a reachable state with the worker parked, work to do, no signal pending and an idle producer exists exactly when the test and the store are separate steps or the signal is not latched |
| Wakeup.WakeupLostAsWritten | Handling/Handler.cpp:79-85 | such a state is reachable for the code as written |
| Wakeup.InvPath | Application/Application.cpp:540-548 | with both assumptions, over every interleaving: the status is suspended exactly while the worker is about to wait, waits, or is about to restore it, and a parked or parking worker with work has a signal pending or a producer about to check |
| Wakeup.FrontGetsServed | Handling/Handler.cpp:75-140 | with both assumptions, from every reachable state with a non-empty queue at most six moves, none an enqueue, take out exactly the front event |
| BinData.BinnaryData.Reserve | DataArrays/binData.cpp:7-32 | a larger size keeps contents and both cursors, on a buffer without contents too; a smaller one clears everything from there on |
| BinData.ReservedAt | DataArrays/binData.cpp:7-32 | byte by byte: nothing moves, and from a size that cuts into the contents on every byte becomes a NUL |
| BinData.BinnaryData.Grow | DataArrays/binData.h:114 | adds to the capacity and keeps contents and cursors |
| BinData.BinnaryData.Write | DataArrays/binData.cpp:160-169 | appends, keeps the read cursor, keeps read index <= put index = used length <= capacity and zeros behind, and grows by the whole amount when the free space is too small |
| BinData.BinnaryData.WriteTyped | DataArrays/binData.cpp:123-131 | appends the bytes, growing by the size of the type every time |
| BinData.BinnaryData.ReadTyped | DataArrays/binData.cpp:116-121 | takes the next bytes of the contents |
| BinData.BinnaryData.Get | DataArrays/binData.h:39 | takes one byte; at the end of the contents it yields NUL and stays |
| BinData.BinnaryData.Unget | DataArrays/binData.h:40 | steps back, from the start to the end |
| BinData.BinnaryData.ReadSome | DataArrays/binData.cpp:146-154 | copies at most the unread contents, nothing from an empty buffer that has memory; the value returned is about what is left after the move |
| BinData.BinnaryData.Find | DataArrays/binData.cpp:391-397 | the search loop finds the first occurrence from the read cursor |
| BinData.BinnaryData.GetLine | DataArrays/binData.cpp:356-369 | the line up to the next line feed or NUL; the cursor passes the line feed |
| BinData.BinnaryData.GetToken | DataArrays/binData.cpp:340-354 | the word up to the next blank of the line or the line's end; the cursor passes the separator |
| BinData.RunBuffer | DataArrays/binData.cpp:7-169 | any legal run of reserving, growing, writing and reading on a new buffer, through reallocations with and without contents, reads what a plain byte sequence with an index would, and ends with the memory that model counts |
| BinData.AdjacentReads | DataArrays/binData.cpp:146-154 | two partial reads in a row are one read of both sizes |
| TypedData.DecodeEncode | DataArrays/binData.cpp:116-131 | reading a value of any integer type from its bytes gives the value |
| TypedData.LittleEndian | DataArrays/binData.cpp:123-131 | byte i of the stored form is the digit of weight 256^i of the two's complement value |
| TypedData.Ranges | DataArrays/binData.h:65-74 | which values each of the eight integer types holds |
| TypedData.RoundTrip | DataArrays/binData.cpp:200-338 | inserting any list of mixed-width integers and extracting at the same types gives the list, inside the contents, and both cursors end together |
| Lines.ReadLines | DataArrays/binData.cpp:356-369 | on contents made of lines, repeated getline returns lines that joined give the contents back, and uses them up |
| Lines.LinesUnique | DataArrays/binData.cpp:356-369 | there is only one list of lines with that join |
| Http.ProcessReceive | Protocol/HTTP/Base.cpp:110-157 | the parser on the buffer computes the parse of the text up to its first NUL, wherever that is defined |
| Http.ParseHeaders | Protocol/HTTP/Base.cpp:139-157 | the do-while loop terminates at the blank line, because every line moves the cursor |
| Http.HeadersEndAtBlankLine | Protocol/HTTP/Base.cpp:139-157 | the header loop is defined exactly on texts that hold a line that is blank once trimmed |
| Http.DefinedOnEndedRequests | Protocol/HTTP/Base.cpp:110-157 | the whole parse is defined exactly on texts with a first word and, if that is a method served, two more words and a blank line behind the third |
| Http.FirstWordDecides | Protocol/HTTP/Base.cpp:117-133 | on any text with a line end, the word before its first blank or line end decides the method: GET, POST and HEAD in any letter case, and any other word is unsupported |
| Http.ParseUndoesPrint | Protocol/HTTP/Base.cpp:115-157 | for every well-formed request, folded or not, whatever follows it, the parser takes GET, POST and HEAD, letter by letter in either case, for what they say, refuses every other first word, recovers the URI and takes each physical line of the fields on its own up to the first blank one: last Host, last User-Agent and the multiset of the others, names in lower case and values trimmed; with harmless folds, and so with none, that is what the request says |
| Http.FoldsParse | Protocol/HTTP/Base.cpp:139-157 | what continuation lines add: a pair for each line with a colon, nothing for any other, and the end of the headers at a blank one |
| Http.FoldsRecovered | Protocol/HTTP/Base.cpp:139-157 | the pairs taken are the pairs meant exactly when only the last field is continued, by blank lines |
| Http.OneFieldRecovered | Protocol/HTTP/Base.cpp:139-157 | the header of a single field is the one meant exactly when its continuation lines are blank |
| Http.FoldedValueTorn | Protocol/HTTP/Base.cpp:139-157 | a field that says "a b" on two lines is taken for "a" in any request |
| FileAddress.FileAddress.Parse | Protocol/HTTP/Adds.cpp:5-32 | splits at the last slash and then at the first question mark; without a slash only the validity changes |
| FileAddress.SplitLosesNothing | Protocol/HTTP/Adds.cpp:5-32 | the parts put together again are the file, only the path has slashes, and the name has no question mark |
| FileAddress.SplitsURIUnlessSlashInQuery | Protocol/HTTP/Adds.cpp:5-32 | the split is that of the URI's path and query exactly when the query has no slash |
| FtpScript.SendStops | Sockets/Socket.cpp:15-50 | where a send stops: its replies up to some one let it go on, and then the buffer is full, the replies are used up, or the next one is a zero or an error other than EAGAIN |
| FtpScript.SendFilled | Sockets/Socket.cpp:15-50 | a send is filled exactly when replies that let it go on take the whole length |
| FtpScript.ActiveOutcome | Protocol/FTP/FTP.cpp:81-110 | what each reply makes of a turn of the active loop, both directions: retried, broken off, peer gone, advanced by how much |
| FtpScript.PassiveOutcome | Protocol/FTP/FTP.cpp:135-164 | what the replies make of a turn of the passive loop, both directions |
| FtpScript.BadDescriptorOutcome | Protocol/FTP/FTP.cpp:131-164 | on a descriptor that accept did not yield, the error left over decides |
| FtpScript.TransferEnds | Protocol/FTP/FTP.cpp:81-164 | every run of a loop goes on turn by turn until one that is aborted, stops it or completes it, and is under way only when the script is used up |
| FtpScript.PassiveCompletes | Protocol/FTP/FTP.cpp:135-164 | a passive transfer completes, from memory and from a file, when no turn is aborted, the peer takes what it is offered, and there are enough turns |
| FtpTransfer.Socket.Send | Sockets/Socket.cpp:15-50 | for any partial sends and retries the peer has a prefix of the buffer, all of it exactly when the full length is returned; it stops as its replies say, and is not done only when they are used up |
| FtpTransfer.SendPassive | Protocol/FTP/FTP.cpp:135-164 | from memory and from a file, the peer has a prefix of the source, all of it exactly when the count reaches the length; count and end are those of the run of its script |
| FtpTransfer.SendActiveMemory | Protocol/FTP/FTP.cpp:81-110 | the same for the active loop over memory, retries included, with every length cut to 16 bits; with 65536 or more of both source and segment it never completes and as much is left |
| FtpTransfer.ActiveMemoryCompletes | Protocol/FTP/FTP.cpp:81-110 | some script completes an active transfer from memory exactly when source and segment are not empty and one of them is below 65536; some script delivers anything exactly when the first length is not cut to zero |
| FtpTransfer.CutLengths | Protocol/FTP/FTP.cpp:81-110 | lengths with which nothing is sent, nothing completes, and everything arrives |
| FtpTransfer.SendActiveFile | Protocol/FTP/FTP.cpp:81-110 | the active loop over a file delivers what reading on each turn delivers, and counts up to the length only with the whole file delivered; count and end are those of the run of its script |
| FtpTransfer.ActiveFileDelivery | Protocol/FTP/FTP.cpp:85-90 | that is a prefix of every byte file of a length exactly when nothing is accepted after a chunk that was not taken whole |
| FtpTransfer.ActiveFileDropsByte | Protocol/FTP/FTP.cpp:85-90 | a script on which a file of four bytes arrives without its second |
| FtpTransfer.SendData | Protocol/FTP/FTP.cpp:38-185 | composes the loops: in every mode a transfer that counts as complete delivered everything; which ends are reported as 226 and 425, and 426 after an abort raised in the loop or behind it; count and end are those of the run of the script |
| FtpAddress.ReadDecimal | Protocol/FTP/Base.cpp:308 | extracting a printed number, blank in front or not, gives the number |
| FtpAddress.ReadsSigned | Protocol/FTP/Base.cpp:308 | extraction skips white space, takes a sign or none and the digits, stops at anything else, and cuts the value to 32 bits with a sign |
| FtpAddress.ReadsNothing | Protocol/FTP/Base.cpp:308 | without a number the slot is 0 |
| FtpAddress.SlotsCount | Protocol/FTP/Base.cpp:304-311 | an argument with n commas, n at least 1, fills n + 1 slots |
| FtpAddress.FillSlots | Protocol/FTP/Base.cpp:298-311 | the loop terminates with the argument's fields in the first slots of the array and zeros behind, for up to eight commas |
| FtpAddress.ParsePort | Protocol/FTP/Base.cpp:298-319 | address bytes and port are cut out of the slots |
| FtpAddress.SlotsWrap | Protocol/FTP/Base.cpp:313-319 | a slot counts for its low byte, the last two for the low 16 bits of the number they make |
| FtpAddress.PortUndoesPasv | Protocol/FTP/Base.cpp:298-352 | parsing the printed form of any address and port restores both |
| FtpLogin.PortOverRuns | Protocol/FTP/Base.cpp:291-324 | in any run, a logged in session takes the address of a PORT line with what PASV printed, and nothing else of the server changes |
| FtpLogin.PortRestoresPasv | Protocol/FTP/Base.cpp:291-324 | a PORT line with what PASV printed sets the session to that address and to active mode |
| FtpDirectory.PopRendered | Protocol/FTP/Base.cpp:332-426 | CDUP and CWD ".." both remove the last name; one leaves the final slash off, the other keeps it |
| FtpDirectory.MoveRendered | Protocol/FTP/Base.cpp:332-436 | every command on the string is one operation on the stack of names |
| FtpDirectory.RunRendered | Protocol/FTP/Base.cpp:332-436 | over every run of commands with normalised paths the string is that of the stack |
| FtpDirectory.RefinesStackOfNames | Protocol/FTP/Base.cpp:332-436 | after every command of a run the stack is what push, pop and replace give, exactly when no relative name is entered while the final slash is missing |
| FtpWorkDir.ServeMoves | Protocol/FTP/Base.cpp:199-528 | what any line does to the session's working directory: a move on the stack, or nothing |
| FtpWorkDir.WorkDirIsStack | Protocol/FTP/Base.cpp:155-535 | over every run of the server whose directory changes are by normalised arguments, the session's working directory is the stack its CWD and CDUP lines make, which is the ideal one throughout exactly when no name meets a missing slash |
| FtpSession.PasswordNeverEmpty | Protocol/FTP/Base.cpp:219-232 | the password taken from a line is never empty; without a blank it is the whole line |
| FtpSession.PathsStartAtHome | Protocol/FTP/Base.cpp:357-529 | every path any command names is the session's home directory followed by a path from its root |
| FtpSession.FtpServer.ProcessConnect | Protocol/FTP/Base.cpp:155-163 | makes or keeps the descriptor's session and sets its home |
| FtpSession.FtpServer.ProcessDisconnect | Protocol/FTP/Base.cpp:166-173 | removes the descriptor's session |
| FtpSession.FtpServer.ProcessReceive | Protocol/FTP/Base.cpp:175-535 | sessions, effects and fate are those of the command's step |
| FtpCommands.CommandTable | Protocol/FTP/Base.cpp:81-104 | a word is a command exactly when it spells it letter by letter in either case, and unknown exactly when it spells none |
| FtpAnswers.ConnectAnswers | Protocol/FTP/Base.cpp:155-163 | a connect is answered 220; the fields of a new session |
| FtpAnswers.PassAnswers | Protocol/FTP/Base.cpp:215-255 | a PASS line with any trimmed password, to a prompted session: 230 and logged in exactly for a guest name or an accepted password, otherwise 530 and not; the whole session |
| FtpAnswers.UserAnswers | Protocol/FTP/Base.cpp:199-214 | a USER line sets the name and asks for the password; without a name 500 |
| FtpAnswers.GuardAnswers | Protocol/FTP/Base.cpp:256-529 | every guarded command is answered 530 without a login and changes nothing |
| FtpAnswers.FreeAnswers | Protocol/FTP/Base.cpp:186-533 | NOOP, SYST, HELP, QUIT, words that are no command, and lines that no letter starts |
| FtpAnswers.DirAnswers | Protocol/FTP/Base.cpp:256-374 | PWD, CDUP and LIST of a session that is logged in |
| FtpAnswers.TypeAnswers | Protocol/FTP/Base.cpp:266-289 | the first letter of the argument of TYPE decides, in either case |
| FtpAnswers.PasvAnswers | Protocol/FTP/Base.cpp:340-356 | PASV takes the address listened on, and prints the session's in any case |
| FtpAnswers.CwdAnswers | Protocol/FTP/Base.cpp:375-437 | for every trimmed argument of CWD, the directory it leaves the session in, the one it asks for, and its code |
| FtpAnswers.FileAnswers | Protocol/FTP/Base.cpp:452-529 | for every trimmed name, the path MKD, RMD, DELE, STOR and RETR work on, and the answer |
| FtpAnswers.NoArgument | Protocol/FTP/Base.cpp:382 | a command line without the blank its argument is cut at raises an exception |
| FtpLogin.ServeLogin | Protocol/FTP/Base.cpp:199-528 | what any one line makes of prompt, name and login, told from the words typed: a PASS line logs in exactly when guests are allowed and the name is "anonymous" in either case, or it gives a password that the database accepts or no database is used; guarded effects need a login |
| FtpLogin.SessionIsHistory | Protocol/FTP/Base.cpp:155-255 | over every run, a session is prompted for a name exactly when an accepted USER with it has had no PASS, and logged in exactly when such a USER had a PASS accepted for its name, in a session not ended since |
| FtpLogin.EffectsNeedLogin | Protocol/FTP/Base.cpp:199-528 | over every run, an effect on directories, files or the data connection follows an accepted USER and a PASS accepted for that same name, no other USER or PASS between them, in a session not ended since; accepted means as above, by the words typed |
| FtpLogin.OthersUntouched | Protocol/FTP/Base.cpp:155-535 | no event on one descriptor touches another's session |
| FtpLogin.LoginOutlivesConnect | Protocol/FTP/Base.cpp:155-163 | over every run, behind a connect some login from before is in force exactly when the session it found was logged in |
| FtpLogin.LoginsBelongToConnections | Protocol/FTP/Base.cpp:155-173 | over every run, no prompt and no login is ever older than its connection exactly when every connect finds a session neither prompted nor logged in |
| FtpLogin.OldLoginServes | Protocol/FTP/Base.cpp:155-372 | after any run that leaves the session logged in, the next connection's LIST is served without a login of its own, below the root directory |
| FtpLogin.OldLoginWitness | Protocol/FTP/Base.cpp:155-372 | such a run of five events, for any user name, with the user database or without |
| Smtp.MailAddressBetweenBrackets | Protocol/SMTP/Base.cpp:102-113 | the size arithmetic takes exactly the address between the first and the last bracket |
| Smtp.MailAddressUnbracketed | Protocol/SMTP/Base.cpp:102-113 | what it takes when a bracket is missing or they are the wrong way round |
| Smtp.CommandTable | Protocol/SMTP/Base.cpp:65-78 | a word sets the status of the command it says in either case, and no status when it says none |
| Smtp.ConnectGreets | Protocol/SMTP/Base.cpp:34-51 | a connect is answered 220 and puts the session in HELLO, a disconnect forgets it |
| Smtp.SmtpServer.ProcessConnect | Protocol/SMTP/Base.cpp:34-41 | sets the status only, for this descriptor only |
| Smtp.SmtpServer.ProcessDisconnect | Protocol/SMTP/Base.cpp:44-51 | forgets this descriptor and no other |
| Smtp.SmtpServer.ProcessReceive | Protocol/SMTP/Base.cpp:53-148 | status, data and effects are those of the session's step; other descriptors keep theirs |
| Smtp.SmtpServer.ProcessAll | Protocol/SMTP/Base.cpp:34-148 | over every interleaving a descriptor's session depends on its own events alone |
| Smtp.InvStep | Protocol/SMTP/Base.cpp:34-148 | an event keeps the body empty outside MAIL_DATA and unterminated inside, exactly unless it is a connect that finds a body half received |
| Smtp.InvariantOverRuns | Protocol/SMTP/Base.cpp:34-148 | over whole runs the same: the invariant holds throughout exactly when no such connect occurs |
| Smtp.LeavesBodyByCommit | Protocol/SMTP/Base.cpp:125-139 | a receive leaves MAIL_DATA exactly when what was collected is terminated; then all of it is stored for the first recipient and body and recipients are cleared, otherwise only the body grows |
| Smtp.CommitsAtFirstTerminator | Protocol/SMTP/Base.cpp:125-139 | for any chunks the message is stored with the first chunk that completes a terminator, and is all that has arrived |
| Smtp.TerminatorArrives | Protocol/SMTP/Base.cpp:125-139 | for any chunks, one of them completes a terminator exactly when all that arrives, each chunk up to its first NUL, has one |
| Smtp.EverySplitStoresMessage | Protocol/SMTP/Base.cpp:53-139 | every way of cutting a terminated stream into chunks stores a message that starts with the stream up to its first terminator, exactly when no NUL stands before that end |
| Smtp.SplitStoresMessage | Protocol/SMTP/Base.cpp:125-139 | then the chunk that commits is the one with which the stream's first terminator is complete |
| Smtp.SplitsAgree | Protocol/SMTP/Base.cpp:125-139 | then two splits of one stream store messages that agree up to and including the first terminator |
| Smtp.NulHidesTerminator | Protocol/SMTP/Base.cpp:53-139 | one stream with a NUL that is never stored in one chunk, and is stored in two |
| Smtp.RcptAddsRecipient | Protocol/SMTP/Base.cpp:59-118 | a RCPT line in any letter case adds exactly the bracketed address to the recipients and is answered 250 |
| Smtp.MailSetsSender | Protocol/SMTP/Base.cpp:59-106 | a MAIL line in any letter case sets exactly the sender to the bracketed address and is answered 250 |
| Smtp.HeloSetsHost | Protocol/SMTP/Base.cpp:59-96 | a HELO line in any letter case sets exactly the host and is answered with it |
| Smtp.QuitCloses | Protocol/SMTP/Base.cpp:59-143 | a QUIT line in any letter case only closes the socket |
| Smtp.OtherWordsRepeat | Protocol/SMTP/Base.cpp:59-147 | any other word leaves the status, and what the last command did is done again with the new argument |
| Smtp.DataOpensBody | Protocol/SMTP/Base.cpp:59-124 | a DATA line in any letter case opens the body from any session outside one and is answered 354 |
| Smtp.MessageIsStored | Protocol/SMTP/Base.cpp:59-139 | from any session outside a body that keeps the invariant, a RCPT line, a DATA line and a body in any chunks store that body for the first recipient and clear both |
| SocketMgr.InsertKeepsOrder | Sockets/SocketMgr.cpp:28-35 | insertion keeps the map ordered and adds just the key |
| SocketMgr.InsertMembers | Sockets/SocketMgr.cpp:28-35 | it adds just that socket, and the others keep their addresses |
| SocketMgr.ConnectionMgr.AddSocket | Sockets/SocketMgr.cpp:28-35 | adds a new descriptor and leaves a known one alone |
| SocketMgr.ConnectionMgr.CloseSocketByFd | Sockets/SocketMgr.cpp:55-68 | only queues the socket, so the map is unchanged; the queue gets a socket twice exactly when it was in it already |
| SocketMgr.ConnectionMgr.CloseAllPendingSockets | Sockets/SocketMgr.cpp:18-26 | closes and removes exactly the queued sockets, in order, when none is queued twice |
| SocketMgr.ConnectionMgr.GetSocketMapElementById | Sockets/SocketMgr.cpp:100-107 | the element with exactly that many smaller keys, or the end when there are no more |
| SocketMgr.ConnectionMgr.GetHighestFd | Sockets/SocketMgr.cpp:109-115 | the element at the last position has the largest descriptor |
| MainLoop.Application.HighestDescriptor | Application/Application.cpp:514 | the first argument of select exceeds every watched descriptor |
| MainLoop.Application.Accept | Application/Application.cpp:522-551 | a new socket enters the map and the watched set together |
| MainLoop.Application.Serve | Application/Application.cpp:555-609 | what each result of a receive does to watched set, close queue and events |
| MainLoop.Application.ServeReady | Application/Application.cpp:553-609 | the counted loop serves exactly the ready sockets in map order, drops exactly those closed or bad, and enqueues the events of what each received |
| MainLoop.AllServed | Application/Application.cpp:554 | when the count of select is used up, the rest of the map has nothing ready |
| MainLoop.Application.TakeTurn | Application/Application.cpp:509-611 | one turn keeps watched set and map in step, empties the close queue, leaves exactly the sockets that were there or accepted and not dropped, and enqueues the connect and then the events of the receives |
| MainLoop.Update | Application/Application.cpp:509-611 | over every run where only the loop closes sockets: the watched set is the server socket and the keys of the map, the map and all events enqueued are those of the turns one after the other, the close queue is empty, and the first argument of every select exceeded all it watched |
| LibraryView.LibraryKnows | Application/Application.cpp:509-611 | over every run, the events leave the library taking a descriptor for connected exactly when the descriptor is open or was last dropped without a disconnect event |
| LibraryView.ConnectMeetsBadDrop | Application/Application.cpp:522-609 | the connect of a descriptor that is not open meets a session that was not ended exactly when the descriptor was last dropped as bad |
| LibraryView.ConnectsClean | Application/Application.cpp:509-611 | over every run, no connect event meets a session that was not ended exactly when no accept yields such a descriptor |
| LibraryView.ConnectWithoutEnd | Application/Application.cpp:509-611 | a run of three turns whose events are two connects of one descriptor |
| LibraryEvents.AddressesKept | Application/Application.cpp:509-611 | over every run, each socket in the map has the address it was accepted from |
| LibraryEvents.EventsAreTold | Application/Application.cpp:509-611 | over every run, the events about a descriptor are, in order, a connect for each accept of it, the data of each receive while its socket was open, and a disconnect for each time its peer was found gone, each as far as there is a callback, with the address it was accepted from |
| LibraryEvents.ReceivesExactly | Application/Application.cpp:576-584 | over every run, the library is given exactly the data results of the turns that got to the descriptor while it was open, in order and with its peer's address; without a callback nothing |

## Left out

- Event lifetime: the deletion of `event.data`, slicing of delayed events and shared buffers are not modelled; a buffer is its address.
- Data races on the queues: each queue operation is one step. Only the parking protocol is taken apart into single accesses.
- Memory ordering weaker than an interleaving of the accesses.
- Other threads act between the passes of the worker, not inside one, and Terminate not between taking the front event and removing it.
- FreezeDetector, ThreadMgr, configuration loading, logging and response texts.
- `BinnaryData` operations outside the contract of the cursors: `append`, `seekp` before a write, `seekg`, `skip`, `locate`, `find`, `tellg`, `teelp`, `clear`.
- BinData.BinnaryData.Reserve: the old block of a buffer without contents is never released; the leak is not modelled, and the allocator is assumed to leave room between blocks, so that a pointer into the old one is never inside the new one or at its end.
- BinData.BinnaryData.ReadSome: without any memory the source's assertion on the read pointer fails, so memory is required.
- BinData.BinnaryData.GetLine: a delimiter must be left; without one the source indexes by `npos` and has no defined result. The same holds for GetToken and for `Http.ProcessReceive`, whose undefined inputs `Http.DefinedOnEndedRequests` delimits.
- Clock.TickError: differences of more than 2^64 milliseconds, which the return type cannot hold.
- FtpAddress.ParsePort: signed overflow of `a[4] * 256 + a[5]` is taken modulo 65536, as the assignment to the port would cut it.
- Arguments of FTP commands that the source cuts at a missing blank raise an exception that nothing catches, and a PORT argument with more than eight commas writes past its array; the model reports these outcomes as undefined, and its runs then go on with the session as it was.
- SocketMgr.ConnectionMgr.CloseAllPendingSockets: a socket queued twice is erased through an iterator that is gone, which is undefined; the main loop never queues one twice (`MainLoop.Application.ServeReady`).
- FtpAnswers.ConnectAnswers: the source does not initialise the transfer type of a new session, and never reads it; the model takes it for binary.
- RecvData, which writes what it receives to a file chunk by chunk, and the control responses sent inside the threads.
- The delayed twins of connect, receive and disconnect events in the main loop, and the sockets that protocol libraries close themselves.
- FtpDirectory.RunRendered, and with it FtpWorkDir.WorkDirIsStack: an empty argument and paths with empty, "." or ".." components in an absolute or multi-component argument are outside the stack of names; the string edits themselves are modelled for every argument.
- HTTP responses, `isWithinRootDir`, and the file system behind the handlers.
- The response of SMTP QUIT and the closing of sockets by the protocol libraries change the socket map outside the main loop.
