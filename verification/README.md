# A verified model of the SSI web server and the dining philosophers

The firmware has two independent cores: a small HTTP server on top of lwIP that
expands server-side-include tags while it sends a file, and the dining-philosophers
protocol of its active objects. This project models both in Dafny and proves what they
promise. `dafny verify dfyconfig.toml` checks everything.

## The web server

`send_data` is called again and again by the receive, sent and poll callbacks. It scans a
file for tags `<!--#name-->` with a five-state scanner that lives in the connection's
state, and offers chunks to `tcp_write`, which takes a chunk whole or refuses it; a
refused chunk is halved and tried again.

- `TagScanner.dfy`, `Expansion.dfy`: the scanner as an automaton, the grammar of tags,
  and the stream a file stands for. `Full` puts each tag's insert right after its `>`;
  `Expand` is what is really sent. `Reference` says the same by the grammar alone, and
  `FullIsReference` connects the two.
- `Pages.dfy`: a page put together from text and tags is sent with the right answer behind
  each tag (`PageIsAnswered`).
- `Streaming.dfy`: the invariant of the interruptible sender (`Track`): what has been
  accepted, then the scanned but unsent file bytes, then the rest of the insert, make up
  `Full` of the scanned text.
- `Httpd.dfy`: the class `HttpState` with the fields of `struct http_state`, one method
  for each branch of the scan loop, the halving loop, and the three parts of `send_data`.
  `file`, `parsed` and `tagEnd` are offsets into the open file's bytes `block`.
- `Tcp.dfy`: a connection's send buffer. Refusals for lack of memory are
  nondeterministic. A write of no bytes succeeds whenever the connection takes data
  (`Source/lwip/src/core/tcp_out.c:290-331`). `short` counts the writes refused although
  the chunk fits; a write that asks for more than the room left, which the scan loop
  itself makes (`Source/webserver/httpd.c:961-980`), is not among them. `lacks` counts the
  failed allocations of a read buffer.
- `FileSystem.dfy`: the pool of ten open files.
- `UriParams.dfy`, `Request.dfy`: splitting the parameters of a URI in place, finding
  the URI, calling CGI handlers, and trying pages. What a cut URI, a list of parameters or
  a file list means is also said without the functions that compute it (`ResolvesTo`,
  `AreParams`, `IsFirst`).
- `Connection.dfy`: the callbacks, with the memory and the slot that a connection owns.
  A callback that frees an `HttpState` ensures that the state still is what it was when
  it was freed (`GivenUp`): nothing is written to it afterwards.
- `OneConnection.dfy`: how many calls a file takes, and an example of a call that hangs.
- `History.dfy`: the events that the TCP stack delivers, and the abstract server that they
  drive: what a step must and may change (`Stepped`, `Moves`), what holds between two
  moments of a connection (`Later`), how the run accounts for what a connection has sent
  (`Told`), and how often a connection can be made to go on (`Continuations`).
- `HttpServer.dfy`: any number of connections and any schedule of events. Connections
  share nothing, and the slots in use are exactly the handles of live connections
  (`AllWell`). What a client is owed (`due`) is nothing until a GET of his is answered,
  and then the stream of the page that answers it, with the handler his connection was
  accepted with. He always has a prefix of it, and all of it once the server has closed
  the connection of its own accord (`EveryClient`). What has been freed stays as it was
  (`EveryState`). A connection polled four times, with no byte acknowledged and no GET
  come in, is gone, whatever else happens in between (`FourPolls`). No connection that
  can go on is made to do so more often than there are bytes owed, calls for
  memory that fail, and one (`NobodyForEver`). `Run` says all this of any schedule, and
  that it goes step by step through the abstract server.

The SSI handler is a function of the tag and of the number of the call, and each
connection has its own, so a handler whose answers change with time is covered. An insert
is at most 192 bytes long.

Four facts about the code differ from its comments or from what one would expect. The
model follows the code.

- The comment at `Source/webserver/httpd.h:101-105` says that the insert replaces the tag.
  The code sends the tag's own text too, and the insert after it. `Replaced` is the stream
  that the comment promises, and `ReplacesIff` shows that the code keeps to it exactly on
  files in which it recognises no tag; `TagTextIsSent` is a page on which it does not.
- A tag that ends with the file's last byte is recognised, but its insert is never
  sent. `ExpandIsFullIff` gives the exact condition, `LastTagLosesItsInsert` an example.
- `send_data` does not return when the send buffer has no room, everything scanned has
  been sent, no insert is pending, the connection takes data, and a tag ends further on
  but before the last byte: zero-byte writes then succeed for ever. `HttpState.ScanPass`
  proves that such a turn of the loop changes nothing, `ScanLoop` and `Connection.SendData`
  that the call hangs exactly under that condition. `ClosedWindowSpins` reaches it from a
  new connection: the first call sends the first insert of a page, which fills the send
  buffer of 512 bytes, and a poll comes before any acknowledgement. With room in the
  buffer every call terminates.
- The scanner never looks back: a tag of the grammar is recognised exactly if the scanner
  is idle where it starts (`RecognisedWhereIdle`). In `<<!--#x-->` the tag is missed
  (`StrayBracketHidesTag`).

## The dining philosophers

- `Table.dfy`, `Philo.dfy`: the classes `TableObject` and `PhiloObject`, whose methods
  carry out the specifications `Serve` and `React`, assertions included.
- `Guests.dfy`: what the forks and flags stand for: who eats and who waits. `Host` says
  in these terms what the table does, and `ServeRefinesHost` that the arrays do it.
- `Dining.dfy`: table and philosophers as an asynchronous system for any number of
  philosophers from two on. Every object has a FIFO queue and handles one event at a
  time, in any order; EAT is copied to every philosopher; a timer that expires puts
  TIMEOUT into its owner's queue. The invariant `Inv` ties each philosopher's state,
  timer, queue and the table's queue together by a phase.
- `DiningProgress.dfy`: deadlock freedom by a weight that every move uses up.
- `DiningTrace.dfy`, `DiningCounts.dfy`: the order of events over whole runs, the forks
  in use, and a bound on the length of the table's queue.
- `DiningRuns.dfy`, `DiningQueues.dfy`: runs put together from single steps; one that
  reaches the bound, and runs that make a philosopher's queue as long as one likes.
- `DiningFairness.dfy`: how often one who waits is passed over.

Two things that one might expect of the protocol do not hold.

- A philosopher who waits is passed over at most once if there are up to three of them,
  and not at all if there are two. With four or more there is no bound: his neighbours can
  eat, be done and eat again in turn while he waits. `PassedOverIff` says so; `LongWait`
  gives the runs.
- No philosopher's queue is bounded if he is slow, whatever their number: copies of EAT
  for others pile up in it (`QueueUnbounded`). The table's queue is bounded by the number
  of philosophers and half of it (`BacklogBounded`), and no better (`BacklogReached`).

## Model

| member | source | states |
|---|---|---|
| TagScanner.RecognisedIffTag | Source/webserver/httpd.c:757-949 | a tag is recognised at a position if and only if the text back to some `<` read while idle is `<!--#`, spaces, a name of 1 to 8 characters without `-` or space, spaces, `-->`, with that name |
| TagScanner.TagFrom | Source/webserver/httpd.c:757-949 | text of a tag whose `<` is read while idle keeps the scanner busy to its end and is recognised exactly there, wherever the scan is interrupted |
| TagScanner.BusyIffViable | Source/webserver/httpd.c:757-949 | the scanner stays busy exactly as long as some tag starts with the text read |
| TagScanner.OpenSince | Source/webserver/httpd.c:757-949 | whatever the scanner has in hand began at a `<` read while idle, and its memory matches the text since |
| Expansion.FullIsReference | Source/webserver/httpd.c:757-1021 | from any idle position the expanded stream equals the reading by the grammar alone: tags copied and followed by their inserts, broken tags passed over without looking back |
| Expansion.StreamMeetsGrammar | Source/webserver/httpd.c:756-1022 | for a whole file, the stream that is sent plus the insert of a tag at its very end is the reading by the grammar |
| Expansion.ExpandIsFullIff | Source/webserver/httpd.c:756-756 | the sent stream has every insert if and only if the file does not end in a tag with a non-empty insert |
| Expansion.LastTagLosesItsInsert | Source/webserver/httpd.c:756-756 | a file whose last byte ends a tag is sent without that tag's insert |
| Expansion.ReplacesIff | Source/webserver/httpd.h:101-105 | the stream with every insert is the one the comment promises, the tag's text replaced, if and only if no tag is recognised; so is the sent stream, if no insert is lost at the end |
| Expansion.TagTextIsExtra | Source/webserver/httpd.c:873-949 | the stream is longer than the promised one by at least nine bytes for each recognised tag |
| Expansion.TagTextIsSent | Source/webserver/httpd.h:101-105 | a page with one tag is sent with the tag's text before the insert, whatever the handler |
| Expansion.RecognisedWhereIdle | Source/webserver/httpd.c:757-949 | a text that is a tag by the grammar is recognised at its end if and only if the scanner is idle where it starts |
| Expansion.NineIsTooLong | Source/webserver/httpd.c:853-861 | a name of nine characters makes no tag |
| Expansion.EightAreEnough | Source/webserver/httpd.c:809-851 | eight characters do, with any white space around them |
| Pages.PageIsAnswered | Source/webserver/httpd.c:377-400 | a page of text and tags is sent with, behind each tag, the handler's answer for the index under which its name is first registered, the calls numbered from 0 on, or the marker for an unknown tag |
| Expansion.StrayBracketHidesTag | Source/webserver/httpd.c:796-801 | a `<` right before a tag makes the scanner miss the tag |
| Streaming.TrackByte | Source/webserver/httpd.c:757-949 | scanning a byte keeps accepted bytes, unsent bytes and pending insert together equal to the expansion of the scanned text |
| Streaming.TrackBound | Source/webserver/httpd.c:699-1058 | whatever has been accepted is a prefix of the stream, and is all of it if and only if no byte of the file is left |
| Tcp.TcpPcb.Write | Source/lwip/src/core/tcp_out.c:290-331 | a chunk is taken whole, or refused because the connection takes no data, the chunk exceeds the room, or memory is short; only the second of these is foreseeable |
| Httpd.WriteHalving | Source/webserver/httpd.c:678-691 | one chunk is taken whole or not at all; the size is halved after each refusal, and a halved chunk of one byte is never tried; the size taken is the first of these that fits, unless memory is short, and each refusal is one of them tried |
| Httpd.HalfTheRoom | Source/webserver/httpd.c:678-691 | if memory is not short, a halved chunk takes at least half of the room, and nothing is taken only with at most two bytes of room |
| Httpd.HttpState.GetTagInsert | Source/webserver/httpd.c:377-400 | the insert is the handler's answer for the index of the first registered tag with this name, or the marker around the name |
| Httpd.HttpState.PassFound | Source/webserver/httpd.c:809-868 | reading a name character keeps the invariant, whatever state the scanner goes to |
| Httpd.HttpState.PassLeadOut | Source/webserver/httpd.c:873-949 | the sending state is entered exactly when a tag ends; the file bytes before the insert are offered, none lost |
| Httpd.HttpState.SendInsert | Source/webserver/httpd.c:983-1010 | the next bytes of the insert go out, none lost or repeated, in a chunk halved as by WriteHalving |
| Httpd.HttpState.PassSending | Source/webserver/httpd.c:957-1020 | file bytes go out before insert bytes, and the scan resumes only when the insert has gone out completely |
| Httpd.HttpState.ScanPass | Source/webserver/httpd.c:756-1022 | a turn keeps the invariant and either ends the loop, or advances by the measure, or spins, changing nothing |
| Httpd.HttpState.ScanLoop | Source/webserver/httpd.c:756-1022 | the loop terminates except exactly when a closed window makes it spin |
| Httpd.HttpState.SendSsi | Source/webserver/httpd.c:700-1058 | a call keeps the invariant with its cursor equations; with room in the buffer it accepts a byte, or a chunk that fits is refused; with none refused it goes on until the room is used up, two segments are sent, the file ends or an insert is on |
| Httpd.HttpState.SendPlain | Source/webserver/httpd.c:665-697 | a file without tags goes out byte for byte, in order, in chunks as large as what is left, the room and two segments allow, halved as by WriteHalving |
| Httpd.HttpState.ServedPrefix | Source/webserver/httpd.c:530-1068 | at every moment the client has a prefix of the stream, and all of it exactly when no byte of the file is left |
| Httpd.HttpState.AllocateBuf | Source/webserver/httpd.c:608-617 | a buffer has two segments' size, halved once for each failed allocation; there is none only after the size has been halved to 100 bytes or less |
| FileSystem.FsMemory.Malloc | Source/webserver/fs.c:52-61 | the lowest free slot is taken; none exactly when all are in use |
| FileSystem.FsMemory.Free | Source/webserver/fs.c:64-73 | exactly the given slot becomes free |
| FileSystem.FsMemory.Open | Source/webserver/fs.c:76-96 | a file that is listed is opened if a slot is free, the first of its name, with the read position at the end, and takes one slot; one that is not listed is not opened, and then the pool stays as it was |
| FileSystem.FsMemory.Read | Source/webserver/fs.c:103-119 | the bytes from the read position on, or the end-of-file result exactly at the end |
| FileSystem.FindIs | Source/webserver/fs.c:85-95 | of several files with one name the first is found; nothing is found exactly if none has the name |
| UriParams.ExtractUriParameters | Source/webserver/httpd.c:313-372 | the names and values are strings inside the buffer, one behind the other, equal to the pure split; only delimiters become NUL; no parameters give 0 |
| UriParams.SplitCount | Source/webserver/httpd.c:329-371 | there are as many parameters as one more than the `&`, and at most 16 |
| UriParams.SplitKeepsFirst | Source/webserver/httpd.c:326-329 | a limit on the number of parameters keeps the first ones |
| UriParams.JoinSplit | Source/webserver/httpd.c:329-369 | joining the split rebuilds the parameters up to the first space after the last `&` |
| UriParams.CutPairJoins | Source/webserver/httpd.c:358-368 | name, `=` and value rebuild the piece, and the name has no `=` |
| UriParams.SplitIsKept | Source/webserver/httpd.c:326-371 | what is split off are the parameters of the text, told by joining; at most the first 16 of them, and none for an empty text |
| UriParams.ParamsAreUnique | Source/webserver/httpd.c:329-369 | a text has only one list of parameters |
| Request.GetIff | Source/webserver/httpd.c:1171-1197 | a packet is a GET exactly if it is "GET ", a URI, " HTTP" and at least one byte more |
| Request.UriIs | Source/webserver/httpd.c:1181-1197 | the URI is what stands before the first marker, up to a NUL |
| Request.TerminateUri | Source/webserver/httpd.c:1181-1197 | the URI ends at the first " HTTP" not at the packet's end, or the request is invalid |
| Request.ResolveUri | Source/webserver/httpd.c:1239-1282 | with the URI split at its first `?`: the first CGI handler of the name before it gets the parameters behind it, and its answer is used; with no handler of that name all of the URI, and with no handlers at all what is before the `?` |
| Request.ResolvedAs | Source/webserver/httpd.c:1239-1282 | the same for any way to read the URI, of which there is one |
| Request.SsiNameIff | Source/webserver/httpd.c:1289-1300 | a name is expanded exactly if it contains `.shtm` or `.ssi` anywhere |
| Request.CandidatesAreNamed | Source/webserver/httpd.c:1207-1302 | the names tried for `/` and for any other URI, in their order, each expanded exactly if it has an SSI extension |
| Request.FirstFoundIs | Source/webserver/httpd.c:1215-1228 | the first that exists is taken; none exactly if none exists |
| Request.OpenDefault | Source/webserver/httpd.c:1210-1228 | the first default page that exists is opened, in one slot |
| Request.Get404File | Source/webserver/httpd.c:1126-1144 | 404.html, else 404.htm, takes at most one slot |
| Request.OpenRequested | Source/webserver/httpd.c:1207-1302 | the first page that exists among those to be tried is opened and tells whether tags are expanded; if none, or no slot is free, the pool is unchanged |
| Request.FirstFoundConcat | Source/webserver/httpd.c:1215-1238 | later pages are opened only if none of the earlier ones exists |
| Connection.SendData | Source/webserver/httpd.c:530-1068 | keeps the connection consistent; hangs exactly on a closed window with a tag ahead; closes only when the file has been sent completely, and then as soon as it has a buffer; else, with room, a byte is accepted or a chunk that fits is refused |
| Connection.AnswerIsFirst | Source/webserver/httpd.c:1207-1302 | a request is answered by the first of the names tried that is in the file list, expanded exactly if that name has an SSI extension, and by nothing if none is there |
| Connection.FinishFile | Source/webserver/httpd.c:626-646 | once nothing is left, fs_read reports the end of the file and the connection is closed with the stream complete |
| Connection.ReadMore | Source/webserver/httpd.c:635-646 | a file opened by fs_open is never read through the buffer |
| Connection.CloseConn | Source/webserver/httpd.c:291-310 | slot, buffer and state are given back, once, the state is left alone from then on, no callback argument is left, and the stack is told to close |
| Connection.ConnErr | Source/webserver/httpd.c:273-289 | an error gives back slot, buffer and state, once, and leaves the state alone from then on |
| Connection.HttpPoll | Source/webserver/httpd.c:1071-1098 | counts polls, aborts a live connection at the fourth, and an orphaned one at once; else continues the file, hanging exactly as send_data does, and leaves a connection without a file alone |
| Connection.HttpSent | Source/webserver/httpd.c:1100-1124 | resets the count and continues the file; when that closes the connection, the answer is complete, and the freed state is not touched again |
| Connection.HandleGet | Source/webserver/httpd.c:1171-1340 | a valid GET is answered by the stream of its page and by nothing if the pool is full; an invalid one closes the connection |
| Connection.HttpRecv | Source/webserver/httpd.c:1146-1355 | each kind of packet: error, end, request, packet while a file is served |
| Connection.HttpAccept | Source/webserver/httpd.c:1357-1398 | a new connection owns fresh state and no slot, and is told of packets, exactly if there is memory for the state; else it has neither |
| OneConnection.ServeToEnd | Source/webserver/httpd.c:530-1068 | with room at each call, a file is sent completely in at most one call more than there are bytes to send and calls for memory that fail; only their number can stop it |
| OneConnection.ClosedWindowSpins | Source/webserver/httpd.c:961-980 | a new connection is given a page with two adjacent tags; unless a write is refused, a poll before any acknowledgement does not return |
| HttpServer.PutBack | Source/webserver/fs.c:52-101 | a step of one connection keeps all connections apart and the slots in use equal to the handles held |
| History.ContinuedOnlySoOften | Source/webserver/httpd.c:530-1124 | each time a connection that can go on is polled or acknowledged it comes nearer to its end, whatever happens to the others in between |
| History.ShownRegistered | Source/webserver/httpd.c:1100-1124 | through a whole run the callbacks stay registered that a connection needs |
| HttpServer.Deliver | Source/webserver/httpd.c:1071-1355 | one event on a connection: a GET that a page answers is taken up if a slot is free, an acknowledgement or a poll continues the file, the server closes only with the answer complete, and a freed state is left alone |
| HttpServer.Server.FullIs | Source/webserver/fs.c:52-61 | the pool is full exactly when all of its slots are handles of connections |
| HttpServer.Server.Run | Source/webserver/httpd.c:1071-1398 | over any schedule of events on any number of connections the server goes through the steps of the abstract one, each event acted on, and stays valid, with what EveryClient, EveryState, FourPolls and NobodyForEver say; what has been freed stays unchanged |
| HttpServer.Server.NobodyForEver | Source/webserver/httpd.c:530-1124 | no connection that can go on is polled or acknowledged more often than there are bytes owed to the client and calls for memory that fail, and once |
| HttpServer.Server.EveryClient | Source/webserver/httpd.c:530-1340 | a client is owed nothing until a GET he has sent is answered, and then the stream of its page; he has a prefix of it, and all of it when the server has closed the connection, unless he ended it or it was aborted; one who has asked for nothing is gone after four polls |
| HttpServer.Server.EveryState | Source/webserver/httpd.c:273-310 | the state handed to a connection is its own until it is freed, and nobody touches it afterwards |
| HttpServer.Server.FourPolls | Source/webserver/httpd.c:1083-1087 | four polls end a connection, whatever else happens in between, if no byte is acknowledged and no GET comes in |
| HttpServer.Server.SlotHasOneOwner | Source/webserver/fs.c:52-101 | a slot in use is the handle of exactly one live connection |
| Table.TableObject.Serving | Source/table.c:119-174 | the arrays and published events are those of the specification Serve; failing assertions change nothing |
| Table.TableObject.constructor | Source/table.c:74-85 | all forks are free and nobody is hungry |
| Table.AssertsIff | Source/table.c:124-148 | an assertion of the table fails exactly on HUNGRY or DONE from nobody or from one marked as waiting, or on DONE from one without both forks |
| Philo.AssertsIff | Source/philo.c:108-171 | an assertion of a philosopher fails exactly on EAT for him while he is not hungry, or on his own DONE |
| Philo.MovedIff | Source/philo.c:108-171 | he is moved on exactly by his timer, or while hungry by EAT for him |
| Philo.PhiloObject.Dispatch | Source/philo.c:108-171 | state, timer and sent events are those of the specification React |
| Philo.PhiloObject.Tran | Source/philo.c:129-161 | DONE is published on leaving `eating`, HUNGRY posted on entering `hungry`, the timer armed on entering the other two |
| Guests.ServeRefinesHost | Source/table.c:124-174 | on the arrays, serving does exactly what seating guests whose neighbours do not eat does; a fork is used if and only if one of its two philosophers eats, and no neighbours eat together |
| Guests.OneForkSuffices | Source/table.c:154-172 | after DONE, the flag and one fork decide whether a neighbour may eat |
| Guests.BothForksFree | Source/table.c:130-131 | both forks are free if and only if no neighbour eats |
| Guests.HostWakesUp | Source/table.c:138-173 | no guest is left waiting who could eat |
| Dining.NoAssertionFails | Source/table.c:124-174 | in every run under every interleaving no assertion of the table or of a philosopher fails, and the invariant holds |
| Dining.PhiloKeeps | Source/philo.c:108-171 | a philosopher's step keeps the invariant and fails no assertion |
| Dining.TableKeeps | Source/table.c:119-174 | the table's step keeps the invariant, fails no assertion, and seats the guests the host seats |
| Dining.HeadInPhase | Source/table.c:125-151 | the event at the head of the table's queue fits its philosopher's phase: DONE comes before his next HUNGRY |
| DiningProgress.MoveUses | Source/philo.c:127-173 | every move but the end of a thinking time uses up weight |
| DiningProgress.QuietRunIsFinite | Source/philo.c:127-173 | a run without a new end of a thinking time is no longer than the weight |
| DiningProgress.RestIsThinking | Source/table.c:124-174 | a system at rest has all philosophers thinking, all queues empty, all forks free |
| DiningProgress.DeadlockFree | Source/table.c:119-174 | the two facts above, for every state that any run leads to |
| DiningProgress.SomebodyHolds | Source/table.c:138-173 | while somebody waits, a neighbour eats or has EAT or DONE on its way |
| DiningTrace.EachGoesRound | Source/table.c:124-174 | in every run, HUNGRY handled, EAT published and DONE handled follow each other in this order for each philosopher |
| DiningTrace.HostShows | Source/table.c:124-174 | one event and the grants it leads to keep to that order |
| DiningCounts.TwoForksEach | Source/table.c:132-151 | twice as many forks are used as philosophers eat, so at most half of them eat |
| DiningCounts.ForksAreConserved | Source/table.c:124-174 | in every run the forks in use are twice the grants not yet given back, and at most all of them |
| DiningCounts.OwnBacklog | Source/philo.c:129-161 | a philosopher has at most two events waiting for the table, DONE before HUNGRY, and DONE only while he holds forks |
| DiningCounts.BacklogBounded | Source/philo.c:129-161 | in every run the table has at most as many events waiting as there are philosophers and half as many again |
| DiningQueues.BacklogReached | Source/philo.c:129-161 | for every number of philosophers a run reaches that bound |
| DiningQueues.QueueUnbounded | Source/table.c:132-171 | for every number of philosophers and every one of them, some run makes his queue longer than any given bound |
| DiningFairness.PassedOverIff | Source/table.c:124-174 | how many grants go to others between a philosopher's HUNGRY and his EAT is bounded if and only if there are at most three philosophers; then by their number less two |
| DiningFairness.ThreePassOver | Source/table.c:154-172 | with three philosophers one is passed over in some run, because the right neighbour is looked at first |
| DiningFairness.LongWait | Source/table.c:154-172 | with four or more, any philosopher can be kept waiting while both neighbours are granted their forks any number of times |
| DiningFairness.HostPassesOver | Source/table.c:124-174 | with up to three, an event seats the one who waits and nobody else, or uses up the one chance to pass him over |

## Left out

- Request.TerminateUri: packets shorter than nine bytes are not modelled; the source reads past their end.
- Request.CallCgi: a CGI handler returns a name; the source's demo handler may return NULL, which fs_open does not accept.
- Httpd.HttpState.GetTagInsert: a handler's negative result, which the source stores in eight unsigned bits, is not modelled; an insert has at most 192 bytes.
- Connection.FinishFile: sending from the read buffer is not modelled, because a file opened by fs_open is never read through it, which ReadMore proves.
- Connection.HttpRecv: whether the packet's own buffer is freed is not modelled; the branch without a file does not free it.
- HttpServer.Server.Run: the schedule ends at a call that hangs; what the rest of the firmware then does is not modelled.
- The active-object framework: queues are FIFO, steps run to completion, an event subscribed twice is delivered once, and pools and queues do not overflow. The storage at Source/main.c:33-34 would not hold what QueueUnbounded and BacklogReached show; the objects' priorities are not modelled.
- Display, UDP, tracing and terminate events, hardware set-up, and the contents of the stored files.
- Dynamic HTTP headers, which this configuration does not compile.
- The TCP stack below tcp_write, tcp_close and tcp_abort; when data that is not copied leaves the device is not modelled.
