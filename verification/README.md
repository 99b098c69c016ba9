# A verified model of the SOCKS5 server

The server is single-threaded C driven by a selector. This project models it, and the lexer the course hands out
beside it, in Dafny and proves what its pieces promise each other. `dafny verify dfyconfig.toml` checks everything.

| file | models |
|---|---|
| HashMap, Credentials | the credential table (open addressing, non-wrapping probing, doubling) and its lookup-before-insert guard |
| Buffer | the byte buffer with two cursors |
| Parser, ParserUtils | the table-driven lexer engine and the compiler from strings to automata |
| Stm | the state-machine engine |
| Selector, Notifications | the descriptor table with its indexes, sweep and dispatch; the hand-over of finished jobs from resolver threads |
| Text, Codec | C strings, decimal and IPv4 text; request parsing and reply writing |
| Connect | the address search |
| Relay | the bidirectional relay |
| Session, SessionSafety | one session as a function of events, and its invariant |
| Endings, Refusals, Progress | exactly when a session closes, what a request without a connection is answered, and where a session that lives on goes |
| SessionTheorems, LoginTheorems, RequestTheorems, SearchTheorems, Metering | the statements about whole runs |
| SessionRuns | runs that show what can go wrong |
| Reporting | how the selector's callbacks are a session's events |
| Connection | the connection object, whose methods update it in place as the session model says |

What the operating system and the C library decide is a parameter of each event: what `recv` and `send` answer, how an
attempt to connect ends, what name resolution yields, the time. Threads are steps of a state machine that may
interleave in any way.

A session is modelled twice. Module Session says what each handler does to a connection seen as a value; module
Connection holds the mutable object, and each of its methods is proved to have that effect, over any sequence of events
(`Connection.Connection.OnEvents`). The invariant and the statements about runs are proved about the values, and
`Connection.Serve` carries them over to the object. The selector appears in a session as the two entries that belong to
the connection: as long as these agree with its table, the read and write events that the session model admits are
exactly the callbacks of a round (`Reporting.ReportedIffEnabled`), and what handlers ask of the selector keeps them in
agreement (`WaitAgrees`, `UnregisterAgrees`, `RegisterAgrees`).

## Where the code does not do what it should

Each of these is proved, with the exact condition under which the code does meet its purpose.

- A failed address search answers HOST_UNREACHABLE to a client that is still watched iff no address of the list ever got
  as far as a connection under way. If one did, even if others were refused after it, the reply is made on an event of
  the origin's descriptor: the handler arms that descriptor, which it has just unregistered, and the reply is never sent
  (`SearchTheorems.WholeSearchDecides`, `StuckIffStranded`; `SessionRuns.StrandedRun`).
- A refused login ends the session iff a `send` fails before the two bytes of the reply are out, and takes the process
  along if the client has gone (`LoginTheorems.RefusedEndsIffSendFails`). Otherwise it waits for writability with nothing
  to write, for ever (`RefusedLoginNeverEnds`, `SessionRuns.RefusedRun`).
- A greeting is answered only if its byte count, cut to eight bits, still covers it (`LoginTheorems.GreetingAnswered`);
  without method 2 the reply is method 0 whether it was offered or not.
- The port field keeps five characters without a terminator, in memory that was never zeroed. The reply's port is
  right unless the cell after them happens to hold a digit (`Codec.PortRoundTrip`). Name resolution is given the same
  field, and there any non-zero cell spoils a port of five digits; a name of 255 bytes is in the same position
  (`RequestTheorems.ResolverAsksForRequest`). A zero byte in a domain cuts it short in both (`Codec.AddressRoundTrip`).
- When one side closes, bytes pending towards the other are dropped (`Relay.CloseDeliversAll`). Bytes that come along
  with the request are never forwarded (`RequestTheorems.OriginGetsAllIffNothingPipelined`, `SessionRuns.PipelinedRun`).
- Three kinds of event take the process down and no others: a read of the client while its name is resolved and a login with a
  wrong version, at which it calls `abort`, and a `send` of bytes that are owed to a peer that has gone, because SIGPIPE
  is neither ignored nor caught (`SessionTheorems.AbortsExactlyOnFatalEvents`; `SessionRuns.AbortedRun`,
  `WrongVersionRun`, `BrokenPipeRun`).
- The ready sets of a round outlive what happens in it. A descriptor number that a callback closes and that is taken
  again before its turn is called for the readiness of its predecessor (`Selector.StaleReadiness`). In CONNECT
  such a call takes the absence of a socket error for a connection made, and announces SUCCESS
  (`SessionRuns.ConnectionMade`).
- Rehashing is lossless because the capacity doubles (`HashMap.DoublingIsLossless`, `GrowthByOneLosesAnEntry`).

Where comments and code disagree the model follows the code. `user_auth_utils.h` says that an unknown user is added
and accepted; the code refuses it and adds nothing. `parser.h` asks for class tables of 256 elements; the default one
has 255. `selector.c` assumes that the memory behind a grown table is blank; `realloc` does not see to that, and
the model leaves those fields arbitrary.

## Model

| member | source | states |
|---|---|---|
| HashMap.DoublingIsLossless | practica/resolucion-tpe-nash/tpe-protos-main/src/server/utils/hashmap.c:13-36 | rehashing into twice the capacity overwrites nothing although it never looks for a free slot past the last one: the entries are the same, every lookup answers the same, unique keys stay unique, and no entry is separated from its home by a gap |
| HashMap.ProbeFindsFreeSlot | practica/resolucion-tpe-nash/tpe-protos-main/src/server/utils/hashmap.c:26-28 | the counting argument: while entries are moved, a non-wrapping probe in the doubled table always meets a free slot |
| HashMap.GrowthByOneLosesAnEntry | practica/resolucion-tpe-nash/tpe-protos-main/src/server/utils/hashmap.c:13-36 | doubling is what makes it safe: growing 2 slots to 3 loses an entry |
| HashMap.OccupyMeans | practica/resolucion-tpe-nash/tpe-protos-main/src/server/utils/hashmap.c:70-79 | filling the slot a probe stops at changes no other lookup, and leaves a key already present with its first value |
| HashMap.FullSuffixIsBounded | practica/resolucion-tpe-nash/tpe-protos-main/src/server/utils/hashmap.c:71-83 | a probe can find its suffix full only while the capacity is at most hash plus size, which bounds the recursion of an insertion |
| HashMap.HashKey | practica/resolucion-tpe-nash/tpe-protos-main/src/server/utils/hashmap.c:4-11 | the 64-bit djb2 hash with signed characters |
| HashMap.Djb2IsPolynomial | practica/resolucion-tpe-nash/tpe-protos-main/src/server/utils/hashmap.c:4-11 | the hash in closed form: the characters as digits in base 33 below the seed, modulo 2^64 |
| HashMap.Table.constructor | practica/resolucion-tpe-nash/tpe-protos-main/src/server/utils/hashmap.c:38-54 | a fresh table answers no lookup |
| HashMap.Table.Rehash | practica/resolucion-tpe-nash/tpe-protos-main/src/server/utils/hashmap.c:13-36 | the new table is the old one re-inserted in index order; a capacity that is not larger changes nothing |
| HashMap.Table.Insert | practica/resolucion-tpe-nash/tpe-protos-main/src/server/utils/hashmap.c:68-85 | terminates; lookups change for a key not yet present only; size grows by one; the result is 1 iff the table did not grow |
| HashMap.Table.Get | practica/resolucion-tpe-nash/tpe-protos-main/src/server/utils/hashmap.c:87-100 | the probe from the home slot finds what a scan of the whole table finds |
| Credentials.FirstWinsDecided | practica/resolucion-tpe-nash/tpe-protos-main/src/server/utils/user_auth_utils.c:101-114 | from an empty store a name is known iff some account has it, with the password of the first such account |
| Credentials.Store.CreateUser | practica/resolucion-tpe-nash/tpe-protos-main/src/server/utils/user_auth_utils.c:101-114 | an account is added only if its name is unknown; keys stay unique and the table size is the number of users |
| Credentials.Store.AreValid | practica/resolucion-tpe-nash/tpe-protos-main/src/server/utils/user_auth_utils.c:81-98 | 0 iff the name is known with that password; the users never change |
| Credentials.CreateAll | practica/resolucion-tpe-nash/tpe-protos-main/src/server/server.c:37-38 | after start-up a login is accepted iff the first account of that name has that password |
| Buffer.RunIsFifo | practica/resolucion-tpe-nash/tpe-protos-main/src/server/utils/buffer.c:17-107 | over any run of operations and compactions the bytes read followed by the bytes held are the bytes held at first followed by those accepted; cursors stay in order; a buffer of some size is never empty and full |
| Buffer.StepKeepsRoom | practica/resolucion-tpe-nash/tpe-protos-main/src/server/utils/buffer.c:50-107 | no operation loses room but to bytes it takes in; compacting, and reading the last byte, win back all that is not held |
| Buffer.PutAllFits | practica/resolucion-tpe-nash/tpe-protos-main/src/server/utils/buffer.c:82-88 | bytes written one by one are appended in order while there is room |
| Buffer.MoveDown | practica/resolucion-tpe-nash/tpe-protos-main/src/server/utils/buffer.c:98-101 | the overlapping move that compaction uses |
| Buffer.Buffer.constructor | practica/resolucion-tpe-nash/tpe-protos-main/src/server/utils/buffer.c:17-22 | a new buffer is empty |
| Buffer.Buffer.Reset | practica/resolucion-tpe-nash/tpe-protos-main/src/server/utils/buffer.c:11-15 | whatever is held is dropped |
| Buffer.Buffer.Receive | practica/resolucion-tpe-nash/tpe-protos-main/src/server/utils/buffer.c:30-35 | bytes stored through the write pointer are appended |
| Buffer.Buffer.ReadAdv | practica/resolucion-tpe-nash/tpe-protos-main/src/server/utils/buffer.c:57-68 | the bytes used leave the front; an emptied buffer starts over; a negative count changes nothing |
| Buffer.Buffer.Read | practica/resolucion-tpe-nash/tpe-protos-main/src/server/utils/buffer.c:70-80 | the first byte, or 0 from an empty buffer |
| Buffer.Buffer.Write | practica/resolucion-tpe-nash/tpe-protos-main/src/server/utils/buffer.c:82-88 | appends a byte, or drops it when full |
| Buffer.Buffer.Compact | practica/resolucion-tpe-nash/tpe-protos-main/src/server/utils/buffer.c:90-103 | the bytes held move to the start, in place |
| Parser.Parser.Feed | material/tpe-programacion/0005-parser.c-peque-o-motor-para-parsers-lexers.patch:78-111 | the first transition that matches moves the state and writes the event or both events; with no match nothing moves |
| Parser.Parser.Reset | material/tpe-programacion/0005-parser.c-peque-o-motor-para-parsers-lexers.patch:73-76 | back to the start state |
| Parser.NoClasses | material/tpe-programacion/0005-parser.c-peque-o-motor-para-parsers-lexers.patch:114-119 | the default class table has 255 elements, one less than there are bytes |
| Parser.HitInTable | material/tpe-programacion/0005-parser.c-peque-o-motor-para-parsers-lexers.patch:84-109 | in a well-formed definition every transition taken leads to a state and has its action |
| Parser.MasksAreUnions | material/tpe-programacion/0005-parser.c-peque-o-motor-para-parsers-lexers.patch:89-92 | a transition on several classes is taken by whatever is in one of them |
| Parser.MaskMatchesItself | material/tpe-programacion/0005-parser.c-peque-o-motor-para-parsers-lexers.patch:89-92 | a class mask matches itself but nothing outside it, and the empty mask nothing |
| ParserUtils.Strcmpi | material/tpe-programacion/0006-parser_utils.c-factory-de-ciertos-parsers-t-picos.patch:128-191 | the flat table built for an ASCII string has the documented layout and is well formed |
| ParserUtils.StateIs | material/tpe-programacion/0006-parser_utils.c-factory-de-ciertos-parsers-t-picos.patch:154-168 | after any input the automaton is in the state of that length iff the input begins the pattern up to case, else in the sink |
| ParserUtils.LastEventDecides | material/tpe-programacion/0006-parser_utils.c-factory-de-ciertos-parsers-t-picos.patch:154-180 | every state matches every byte, and the event of the last byte is EQ, MAYEQ or NEQ exactly as the input equals the pattern, strictly begins it, or neither |
| ParserUtils.Compare | material/tpe-programacion/0006-parser_utils.c-factory-de-ciertos-parsers-t-picos.patch:128-191 | building the table and feeding it to the engine decides equality up to case for every ASCII pattern and non-empty input |
| Stm.RunIsBracketed | practica/resolucion-tpe-nash/tpe-protos-main/src/server/utils/stm.c:25-86 | over any run arrivals and departures alternate, starting with the initial state, and every ready callback runs inside its own state |
| Stm.RunBalance | practica/resolucion-tpe-nash/tpe-protos-main/src/server/utils/stm.c:25-86 | after every run of events, so at every point between two, exactly the current state has one more arrival than departures |
| Stm.RunCounts | practica/resolucion-tpe-nash/tpe-protos-main/src/server/utils/stm.c:25-86 | departures are as many as answers that name another state, arrivals one more at the start; an answer that names the current state makes neither; each event asks its own callback of the state it finds, in order |
| Stm.RunLeadsOn | practica/resolucion-tpe-nash/tpe-protos-main/src/server/utils/stm.c:36-50 | no state is left but for another one, which is entered at once |
| Stm.StateMachine.Handle | practica/resolucion-tpe-nash/tpe-protos-main/src/server/utils/stm.c:52-86 | one event makes exactly the calls due, none but the ready callback if the answer names the current state; it aborts iff the state has no callback for it or the answer is no state |
| Stm.StateMachine.HandleAll | practica/resolucion-tpe-nash/tpe-protos-main/src/server/utils/stm.c:52-86 | a sequence of events on the object survives iff each is handled and answered by a state, and its calls are those of a run |
| Stm.StateMachine.constructor | practica/resolucion-tpe-nash/tpe-protos-main/src/server/utils/stm.c:9-23 | the machine starts before its initial state, which must not be the last one |
| Selector.NextCapacity | practica/resolucion-tpe-nash/tpe-protos-main/src/server/utils/selector.c:198-216 | the smallest power of two above the request, cut to 1024, plus one |
| Selector.SelectorNew | practica/resolucion-tpe-nash/tpe-protos-main/src/server/utils/selector.c:348-368 | null iff more than 1024 descriptors are asked for, else an unused table larger than asked for; 1024 gives 1025 slots |
| Selector.Selector.EnsureCapacity | practica/resolucion-tpe-nash/tpe-protos-main/src/server/utils/selector.c:287-346 | fails exactly for requests over 1024 that do not fit; keeps every item |
| Selector.Selector.ItemsMaxFd | practica/resolucion-tpe-nash/tpe-protos-main/src/server/utils/selector.c:242-258 | the largest registered descriptor, or 0 |
| Selector.Selector.Register | practica/resolucion-tpe-nash/tpe-protos-main/src/server/utils/selector.c:402-451 | registers a free valid descriptor and reports the others; table, descriptor sets and maximum keep agreeing |
| Selector.Selector.Unregister | practica/resolucion-tpe-nash/tpe-protos-main/src/server/utils/selector.c:453-491 | calls handle_close once and clears the item; table, sets and maximum keep agreeing |
| Selector.Selector.SetInterest | practica/resolucion-tpe-nash/tpe-protos-main/src/server/utils/selector.c:493-513 | replaces the interest of a registered descriptor and fails for any other; table, sets and maximum keep agreeing |
| Selector.Selector.Sweep | practica/resolucion-tpe-nash/tpe-protos-main/src/server/utils/selector.c:644-666 | although its bound shrinks while it runs, a registered descriptor survives iff it is not marked and is ignored or idle no longer than the timeout; each evicted one is closed once |
| Selector.Selector.HandleIteration | practica/resolucion-tpe-nash/tpe-protos-main/src/server/utils/selector.c:536-583 | the loop makes the callbacks, and leaves the table, of the turns 2i and 2i+1 of every descriptor i, whatever earlier callbacks register, unregister or re-arm |
| Selector.RoundExact | practica/resolucion-tpe-nash/tpe-protos-main/src/server/utils/selector.c:536-583 | a turn makes its callback exactly if the table that the callbacks made before it leave has the descriptor registered, ready and waiting for that event |
| Selector.RoundReplayed | practica/resolucion-tpe-nash/tpe-protos-main/src/server/utils/selector.c:555-578 | each callback sees its item as the callbacks before it leave it, and the round leaves the table that its callbacks leave: dispatch itself changes nothing else |
| Selector.RoundInOrder | practica/resolucion-tpe-nash/tpe-protos-main/src/server/utils/selector.c:544-582 | callbacks come in descriptor order, read before write, none twice, and only for registered, ready descriptors waiting for the event at that moment |
| Selector.RoundData | practica/resolucion-tpe-nash/tpe-protos-main/src/server/utils/selector.c:549-550 | a callback is given its item's data, except a write callback right after the same descriptor's read callback, which gets what that one got |
| Selector.LeftAloneServed | practica/resolucion-tpe-nash/tpe-protos-main/src/server/utils/selector.c:536-583 | a descriptor that no callback touches is served iff it is registered, ready and waiting when the round begins: the cached maximum hides nobody |
| Selector.StaleReadiness | practica/resolucion-tpe-nash/tpe-protos-main/src/server/utils/selector.c:544-582 | a number closed and taken again by an earlier callback is called for exactly the readiness reported of its predecessor, with the new item |
| Selector.UnregisteredWaitsForNothing | practica/resolucion-tpe-nash/tpe-protos-main/src/server/utils/selector.c:461-487 | a descriptor unregistered by its own read callback is not given the write callback, though the loop does not look again whether it is used |
| Selector.Selector.NotifyBlock | practica/resolucion-tpe-nash/tpe-protos-main/src/server/utils/selector.c:612-639 | a finished job is put at the head of the list |
| Selector.Selector.HandleBlockNotifications | practica/resolucion-tpe-nash/tpe-protos-main/src/server/utils/selector.c:585-610 | the loop gives each finished job one turn in list order, whatever the callbacks do, and empties the list |
| Selector.JobsOnce | practica/resolucion-tpe-nash/tpe-protos-main/src/server/utils/selector.c:593-607 | no job is handed over twice nor to an unregistered descriptor, and each job of a registered descriptor that no callback touches is handed over |
| Selector.JobsInOrder | practica/resolucion-tpe-nash/tpe-protos-main/src/server/utils/selector.c:593-607 | jobs are handed over in list order: if no callback touches a descriptor of the list, the callbacks are those of its registered ones, one by one |
| Selector.JobsReplayed | practica/resolucion-tpe-nash/tpe-protos-main/src/server/utils/selector.c:593-607 | a round of jobs leaves what its callbacks ask for, and each callback sees its item as those before it leave it |
| Selector.ServedIsStamped | practica/resolucion-tpe-nash/tpe-protos-main/src/server/utils/selector.c:561-563 | whoever is served in a round is stamped with its time, whatever the callbacks do |
| Selector.UnservedIsUnchanged | practica/resolucion-tpe-nash/tpe-protos-main/src/server/utils/selector.c:536-583 | whoever is neither served nor touched by a callback keeps its item, stamp included |
| Selector.ServedSurvivesSweep | practica/resolucion-tpe-nash/tpe-protos-main/src/server/utils/selector.c:648-666 | a descriptor served in a round is evicted by a sweep within the timeout only if it is marked |
| Reporting.ReportedIffEnabled | practica/resolucion-tpe-nash/tpe-protos-main/src/server/utils/selector.c:536-583 | when a descriptor's turn comes and the connection agrees with the table, its callback is made iff it was reported ready and the session waits for that event |
| Reporting.WaitAgrees | practica/resolucion-tpe-nash/tpe-protos-main/src/server/utils/selector.c:493-513 | setting an interest keeps connection and table in agreement, also for a number the connection has given up |
| Reporting.UnregisterAgrees | practica/resolucion-tpe-nash/tpe-protos-main/src/server/utils/selector.c:453-491 | unregistering one of its descriptors keeps connection and table in agreement |
| Reporting.RegisterAgrees | practica/resolucion-tpe-nash/tpe-protos-main/src/server/utils/selector.c:402-451 | registering a new origin under a free number keeps connection and table in agreement |
| Reporting.OthersAgree | practica/resolucion-tpe-nash/tpe-protos-main/src/server/utils/selector.c:402-513 | what callbacks ask about other descriptors keeps connection and table in agreement |
| Notifications.SleepingWithJobsIsWoken | practica/resolucion-tpe-nash/tpe-protos-main/src/server/utils/selector.c:612-639 | under every interleaving, while the selector sleeps with jobs waiting the signal is pending or some thread is between its enqueue and its pthread_kill |
| Notifications.ExactlyOnce | practica/resolucion-tpe-nash/tpe-protos-main/src/server/utils/selector.c:585-639 | under every interleaving a job is never delivered twice nor both delivered and dropped, and the job of a thread that has notified is waiting, delivered or dropped |
| Notifications.DeliveredIffRegistered | practica/resolucion-tpe-nash/tpe-protos-main/src/server/utils/selector.c:593-607 | under every interleaving a job is delivered iff it was taken up at a moment when its descriptor was registered, and dropped iff it was taken up when it was not |
| Notifications.WaitingJobsGetDone | practica/resolucion-tpe-nash/tpe-protos-main/src/server/utils/selector.c:585-610 | when all threads are done and jobs wait for a sleeping selector, the signal alone can take it through the whole list, with no descriptor becoming ready |
| Notifications.BackMeansSettled | practica/resolucion-tpe-nash/tpe-protos-main/src/server/utils/selector.c:668-717 | under every interleaving, once the selector is back from a pselect that did not fail, every job that waited while it slept has been delivered or dropped, exactly once |
| Relay.RelayIntegrity | practica/resolucion-tpe-nash/tpe-protos-main/src/server/states/state_forward.c:16-122 | over any run with partial reads, partial writes and EAGAIN, bytes received are bytes sent followed by bytes buffered in each direction, and the metric is twice the bytes sent plus those pending |
| Relay.StepArmed | practica/resolucion-tpe-nash/tpe-protos-main/src/server/states/state_forward.c:20-29 | every event keeps: an interest is OP_WRITE iff that side's buffer holds bytes, at most one buffer does, and an interest is OP_NOOP only while the other is OP_WRITE |
| Relay.StepSound | practica/resolucion-tpe-nash/tpe-protos-main/src/server/states/state_forward.c:5-14 | no event loses, repeats or reorders a byte, and each is counted once when received and once when sent |
| Relay.SomethingEnabled | practica/resolucion-tpe-nash/tpe-protos-main/src/server/states/state_forward.c:48-70 | some descriptor is always waited on |
| Relay.CloseDeliversAll | practica/resolucion-tpe-nash/tpe-protos-main/src/server/states/state_forward.c:38-41 | a close ends the session at once; it loses nothing iff the other side is not being waited on for writing |
| Relay.CloseCanLose | practica/resolucion-tpe-nash/tpe-protos-main/src/server/states/state_forward.c:38-41 | a run that loses a byte to a close |
| Relay.DrainRestores | practica/resolucion-tpe-nash/tpe-protos-main/src/server/states/state_forward.c:90-118 | a peer that takes all it is offered re-arms both sides for reading |
| Relay.StepOutcome | practica/resolucion-tpe-nash/tpe-protos-main/src/server/states/state_forward.c:31-121 | forwarding ends exactly on a close, a failed read, or a failed send of bytes there are; a partial send, EAGAIN or a full buffer never end it |
| Relay.StepDelivers | practica/resolucion-tpe-nash/tpe-protos-main/src/server/states/state_forward.c:5-14 | what is received joins the buffer, and of what is then offered exactly what send() took is sent, in order; the other direction is not touched |
| Relay.FullStopsReading | practica/resolucion-tpe-nash/tpe-protos-main/src/server/states/state_forward.c:22-29 | a full buffer stops the reading of the side that fills it and waits for the other |
| Relay.ForwardingGoesOn | practica/resolucion-tpe-nash/tpe-protos-main/src/server/states/state_forward.c:16-122 | over any run without a close or a failure forwarding goes on with its joint invariant |
| Text.AtoiOfDecimal | practica/resolucion-tpe-nash/tpe-protos-main/src/server/states/state_utils.c:35-37 | a number printed in decimal reads back as itself, continued by any digits that follow |
| Text.DottedParses | practica/resolucion-tpe-nash/tpe-protos-main/src/server/states/state_utils.c:60-66 | a printed IPv4 address reads back as the same four bytes |
| Text.PtonIsInverse | practica/resolucion-tpe-nash/tpe-protos-main/src/server/states/state_utils.c:60-66 | whatever reads as an IPv4 address is the text its bytes print as |
| Text.DottedFits | practica/resolucion-tpe-nash/tpe-protos-main/src/server/states/state_request.c:128-132 | an IPv4 text fits its array |
| Codec.WriteResponse | practica/resolucion-tpe-nash/tpe-protos-main/src/server/states/state_utils.c:8-38 | the buffer is reset and holds exactly the reply, as far as it has room |
| Codec.ReplyIsWellFormed | practica/resolucion-tpe-nash/tpe-protos-main/src/server/states/state_utils.c:8-58 | every reply with a standard address type has an address field as long as its type says and two bytes of port |
| Codec.GetIpv4Address | practica/resolucion-tpe-nash/tpe-protos-main/src/server/states/state_request.c:123-137 | consumes six bytes or none and leaves the texts in the arrays |
| Codec.GetDomainName | practica/resolucion-tpe-nash/tpe-protos-main/src/server/states/state_request.c:139-153 | consumes length, name and port as far as there are bytes |
| Codec.GetIpv6Address | practica/resolucion-tpe-nash/tpe-protos-main/src/server/states/state_request.c:155-175 | consumes eighteen bytes or none |
| Codec.ParseWhole | practica/resolucion-tpe-nash/tpe-protos-main/src/server/states/state_request.c:123-175 | a request that lies whole in the buffer is consumed exactly and the tail kept |
| Codec.PortRoundTrip | practica/resolucion-tpe-nash/tpe-protos-main/src/server/states/state_request.c:61-61 | the port stored and written back is the one requested iff it has fewer than five digits, or the never-written last cell is no digit, or the sixth digit does not matter modulo 2^16 |
| Codec.PortCanBeLost | practica/resolucion-tpe-nash/tpe-protos-main/src/server/states/state_request.c:61-61 | port 10000 before a cell holding 0 comes back as 34464 |
| Codec.AddressRoundTrip | practica/resolucion-tpe-nash/tpe-protos-main/src/server/states/state_utils.c:60-93 | the address field written back is the one requested iff a domain holds no zero byte; names of 255 bytes included |
| Codec.RequestReplyRoundTrip | practica/resolucion-tpe-nash/tpe-protos-main/src/server/states/state_request.c:123-153 | the SUCCESS reply is 05 00 00 followed by the request from its address type on, iff the two conditions above hold |
| Codec.Ipv4TargetIsRequested | practica/resolucion-tpe-nash/tpe-protos-main/src/server/states/state_request.c:177-192 | the socket address connected to is always the one requested |
| Connect.SearchFindsFirst | practica/resolucion-tpe-nash/tpe-protos-main/src/server/states/state_connect.c:6-97 | over all its events the search connects to the first address in order that works, gives up iff all fail, and always ends |
| Connect.AdvanceSkipsFailures | practica/resolucion-tpe-nash/tpe-protos-main/src/server/states/state_connect.c:9-66 | the addresses one call passes over are those that failed |
| Connect.BrokenIffStumbles | practica/resolucion-tpe-nash/tpe-protos-main/src/server/states/state_connect.c:20-46 | the search breaks off exactly at an address whose socket the selector does not take, all before it having failed at once |
| SessionSafety.StepKeepsInv | practica/resolucion-tpe-nash/tpe-protos-main/src/server/socks5_handler.c:11-80 | one event keeps the joint invariant of state, interests, buffers, references and history; the end releases everything once; exactly the fatal events take the process down |
| SessionSafety.HelloReadLeaves | practica/resolucion-tpe-nash/tpe-protos-main/src/server/states/state_hello.c:5-72 | hello_read leaves the invariant of the state it answers; the buffer it resets is empty |
| SessionSafety.AuthReadLeaves | practica/resolucion-tpe-nash/tpe-protos-main/src/server/states/state_auth.c:4-62 | auth_read leaves the invariant of the state it answers: the buffer it resets is empty, and AUTH with OP_WRITE implies accepted credentials |
| SessionSafety.RequestReadLeaves | practica/resolucion-tpe-nash/tpe-protos-main/src/server/states/state_request.c:10-91 | request_read leaves the invariant of the state it answers on every branch, refusals and incomplete requests included |
| SessionSafety.RequestWriteLeaves | practica/resolucion-tpe-nash/tpe-protos-main/src/server/states/state_request.c:93-121 | request_write enters FORWARDING only with an empty write buffer and both descriptors armed for reading |
| SessionSafety.ConnectWriteLeaves | practica/resolucion-tpe-nash/tpe-protos-main/src/server/states/state_connect.c:6-97 | connect_write leaves the invariant of the state it answers; it strands the session iff it gives up on an event of the origin |
| SessionSafety.ResolutionBlockLeaves | practica/resolucion-tpe-nash/tpe-protos-main/src/server/states/state_resolve.c:38-64 | resolution_block leaves the invariant of the state it answers, whether resolution failed, found nothing or found addresses |
| SessionSafety.FinishReleases | practica/resolucion-tpe-nash/tpe-protos-main/src/server/socks5_handler.c:170-190 | finish unregisters both descriptors, drops all references and frees the connection once |
| SessionTheorems.ClientSeesOrderedReplies | practica/resolucion-tpe-nash/tpe-protos-main/src/server/states/state_request.c:93-121 | in every run the bytes sent to the client are a prefix of method reply, optional authentication reply, request reply and relayed bytes, and no reset discards pending ones |
| SessionTheorems.ForwardingAfterSuccess | practica/resolucion-tpe-nash/tpe-protos-main/src/server/states/state_request.c:102-120 | FORWARDING is entered only after a complete SUCCESS reply |
| SessionTheorems.AuthenticationGate | practica/resolucion-tpe-nash/tpe-protos-main/src/server/states/state_auth.c:42-61 | with method 2 the session is in REQUEST or later only after its credentials were accepted, and never once they were refused |
| SessionTheorems.ReferencesBalance | practica/resolucion-tpe-nash/tpe-protos-main/src/server/socks5_handler.c:82-100 | references equal registered descriptors; an origin descriptor is registered; the connection is freed exactly once |
| SessionTheorems.AbortsExactlyOnFatalEvents | practica/resolucion-tpe-nash/tpe-protos-main/src/server/socks5_handler.c:37-39 | the process is taken down exactly by a read of the client during name resolution, a login with a wrong version, and a send of owed bytes to a peer that has gone |
| SessionRuns.AbortedRun | practica/resolucion-tpe-nash/tpe-protos-main/src/server/socks5_handler.c:37-39 | a run of three events that aborts: the client closes while its name is resolved |
| SessionRuns.WrongVersionRun | practica/resolucion-tpe-nash/tpe-protos-main/src/server/states/state_auth.c:23-26 | a run of two events that aborts: a login with a wrong version |
| SessionRuns.BrokenPipeRun | practica/resolucion-tpe-nash/tpe-protos-main/src/server/states/state_hello.c:81-88 | a run of two events that SIGPIPE ends: half of the method reply is owed to a client that has gone |
| SessionSafety.KilledIff | practica/resolucion-tpe-nash/tpe-protos-main/src/server/states/state_forward.c:5-14 | a handler is killed by SIGPIPE iff it has bytes to send and the peer has gone; which events have it send is told by the state and the bytes at hand |
| Endings.ClosesExactlyOnEndings | practica/resolucion-tpe-nash/tpe-protos-main/src/server/socks5_handler.c:58-80 | an event closes a session exactly if it is one of those told from its state, the bytes at hand and the answers of recv, send, resolver and selector; after any other that is not fatal it lives |
| Progress.LobbyLeadsOn | practica/resolucion-tpe-nash/tpe-protos-main/src/server/states/state_auth.c:82-91 | until the request, a session that lives on is in the state its history and pending reply call for; with a method or login accepted and the reply out it waits for the request |
| Progress.RequestLeadsOn | practica/resolucion-tpe-nash/tpe-protos-main/src/server/states/state_request.c:10-121 | from the request on: a name goes to the resolver, a literal or resolved address is connected to until answered, an answer that is out leads to forwarding |
| Progress.RepliesGoOut | practica/resolucion-tpe-nash/tpe-protos-main/src/server/states/state_hello.c:74-95 | every event that may send does, and exactly what send() takes of the pending reply is out |
| Progress.AcceptedStep | practica/resolucion-tpe-nash/tpe-protos-main/src/server/states/state_auth.c:64-92 | one event after an accepted login ends the session iff its send fails, and the last byte of the reply leads to REQUEST with the client awaited for reading |
| Progress.AcceptedGetsIn | practica/resolucion-tpe-nash/tpe-protos-main/src/server/states/state_auth.c:64-92 | over every run an accepted login comes to REQUEST at the event that sends the last byte of its reply, iff no send fails first |
| SessionRuns.AcceptedRun | practica/resolucion-tpe-nash/tpe-protos-main/src/server/states/state_auth.c:42-61 | two events after which a login is accepted and the session waits for the request |
| Refusals.CommandRefused | practica/resolucion-tpe-nash/tpe-protos-main/src/server/states/state_request.c:42-47 | a command other than CONNECT is answered 05 07 00, the address type, an empty address and port 0, and nothing is connected to |
| Refusals.TypeRefused | practica/resolucion-tpe-nash/tpe-protos-main/src/server/states/state_request.c:85-90 | CONNECT with an address type outside 1, 3 and 4 is answered 05 08 00, that type and six zeros |
| Refusals.UnresolvedAnswered | practica/resolucion-tpe-nash/tpe-protos-main/src/server/states/state_resolve.c:41-54 | a name that cannot be resolved is answered HOST_UNREACHABLE with the stored host and port, one that resolves to nothing with an empty host |
| Refusals.IncompleteWaits | practica/resolucion-tpe-nash/tpe-protos-main/src/server/states/state_request.c:25-27 | a request that is not complete makes no reply, no search and no end; its header is kept only while it is short of four bytes |
| LoginTheorems.RefusedEndsIffSendFails | practica/resolucion-tpe-nash/tpe-protos-main/src/server/states/state_auth.c:64-92 | over every run after a refused login the session ends iff a send fails before the reply is out, by closing or, if the client has gone, with the process; otherwise it lives on with its history unchanged |
| LoginTheorems.RefusedStep | practica/resolucion-tpe-nash/tpe-protos-main/src/server/states/state_auth.c:74-88 | one event after a refusal ends the session iff part of the reply is unsent and sending it fails, and otherwise sends what send() takes |
| LoginTheorems.RefusedLoginNeverEnds | practica/resolucion-tpe-nash/tpe-protos-main/src/server/states/state_auth.c:85-88 | once the reply of a refused login is out, no event changes anything: the session never closes by itself |
| SessionRuns.RefusedRun | practica/resolucion-tpe-nash/tpe-protos-main/src/server/states/state_auth.c:52-55 | two events after which a session is refused and lives for ever |
| LoginTheorems.RefusalIsFinal | practica/resolucion-tpe-nash/tpe-protos-main/src/server/states/state_auth.c:52-55 | a refused login is never reconsidered |
| SearchTheorems.StuckIffStranded | practica/resolucion-tpe-nash/tpe-protos-main/src/server/states/state_connect.c:84-96 | a live session waits for something unless its search ended on an event of the origin; then its reply is never sent |
| SearchTheorems.UnreachableSentIffClientKey | practica/resolucion-tpe-nash/tpe-protos-main/src/server/states/state_connect.c:84-85 | a HOST_UNREACHABLE reply of the search is armed iff the handler ran with the client's key |
| SessionRuns.StrandedRun | practica/resolucion-tpe-nash/tpe-protos-main/src/server/states/state_connect.c:57-65 | a run of three events that strands a session |
| SearchTheorems.WholeSearchDecides | practica/resolucion-tpe-nash/tpe-protos-main/src/server/states/state_connect.c:6-97 | from the event that begins a search to its reply: SUCCESS iff an address works after only failing ones, HOST_UNREACHABLE iff all fail, and that reply is armed iff no address was ever under way |
| SearchTheorems.FirstCall | practica/resolucion-tpe-nash/tpe-protos-main/src/server/states/state_connect.c:9-66 | the first call leaves an address under way with all before it failed, or has seen every address fail without a connection |
| SearchTheorems.SearchRunDecides | practica/resolucion-tpe-nash/tpe-protos-main/src/server/states/state_connect.c:9-96 | once an address is under way, SUCCESS is answered iff an address works after only failing ones, HOST_UNREACHABLE iff all fail, and then the session is stranded |
| SearchTheorems.ResolvedBegins | practica/resolucion-tpe-nash/tpe-protos-main/src/server/states/state_resolve.c:49-63 | a name that resolves begins a search through what it resolves to |
| SearchTheorems.LiteralBegins | practica/resolucion-tpe-nash/tpe-protos-main/src/server/states/state_request.c:53-63 | a request for a literal address begins a search through that one |
| RequestTheorems.RequestIsStored | practica/resolucion-tpe-nash/tpe-protos-main/src/server/states/state_request.c:29-72 | a whole request is taken from the buffer exactly and its address, type and port are stored |
| RequestTheorems.RequestReadWhole | practica/resolucion-tpe-nash/tpe-protos-main/src/server/states/state_request.c:10-91 | a whole request for a literal address begins the search at once, one for a name is handed to the resolver; what is behind it stays in the buffer |
| RequestTheorems.ResolverAsksForRequest | practica/resolucion-tpe-nash/tpe-protos-main/src/server/states/state_resolve.c:13-13 | getaddrinfo is given the name and port requested iff the name has no zero byte, and a 255-byte name and a five-digit port happen to be followed by one |
| Codec.DomainTargetIsRequested | practica/resolucion-tpe-nash/tpe-protos-main/src/server/states/state_request.c:64-72 | the stored texts of a name and a port read back as requested under exactly these conditions |
| RequestTheorems.SuccessEchoesRequest | practica/resolucion-tpe-nash/tpe-protos-main/src/server/states/state_connect.c:69-77 | over every run from a whole request on, through name resolution and failed addresses, a SUCCESS reply echoes the request iff the domain has no zero byte and the port survives its storage |
| RequestTheorems.ReplyEchoesRequest | practica/resolucion-tpe-nash/tpe-protos-main/src/server/states/state_connect.c:69-84 | over every run a request is answered SUCCESS or HOST_UNREACHABLE if at all, and either reply echoes it under the same conditions; a name that resolves to nothing is answered with an empty one |
| RequestTheorems.StepPursues | practica/resolucion-tpe-nash/tpe-protos-main/src/server/states/state_resolve.c:38-64 | while a request is carried out no event changes its stored address, type and port, once it is answered none makes another reply, and none touches the read buffer |
| RequestTheorems.OriginGetsAllIffNothingPipelined | practica/resolucion-tpe-nash/tpe-protos-main/src/server/states/state_forward.c:20-20 | over every run from a whole request into FORWARDING, bytes read along with the request stay in the read buffer, and the origin gets all that the client sent after its request iff there are none |
| SessionRuns.PipelinedRun | practica/resolucion-tpe-nash/tpe-protos-main/src/server/states/state_request.c:13-20 | a run of four events that leaves a byte behind |
| Metering.MetricCountsRelayedBytes | practica/resolucion-tpe-nash/tpe-protos-main/src/server/states/state_forward.c:5-14 | in every run the byte metric is what came in for relaying plus what was relayed; the replies do not count |
| RequestTheorems.PipelinedBytesStay | practica/resolucion-tpe-nash/tpe-protos-main/src/server/states/state_forward.c:16-122 | bytes left in the read buffer stay there while forwarding |
| LoginTheorems.GreetingAnswered | practica/resolucion-tpe-nash/tpe-protos-main/src/server/states/state_hello.c:46-58 | a whole greeting is answered iff its byte count cut to eight bits still covers it, never with 254 or 255 methods; method 2 is chosen iff offered |
| LoginTheorems.LoginDecided | practica/resolucion-tpe-nash/tpe-protos-main/src/server/states/state_auth.c:23-43 | a login that lies whole in the read buffer is taken from it exactly and accepted iff the store has that password for that name, both read up to a zero byte |
| LoginTheorems.ShortGreetingWaits | practica/resolucion-tpe-nash/tpe-protos-main/src/server/states/state_hello.c:32-48 | a greeting that is not complete is waited on; fewer than two bytes are kept, the version and the count are not |
| Connection.Connection.constructor | practica/resolucion-tpe-nash/tpe-protos-main/src/server/socks5_handler.c:122-152 | a connection starts as the session model does |
| Connection.Connection.HelloRead | practica/resolucion-tpe-nash/tpe-protos-main/src/server/states/state_hello.c:5-72 | hello_read, with its scan of the methods, changes the object as the session model says |
| Connection.Connection.HelloWriteAux | practica/resolucion-tpe-nash/tpe-protos-main/src/server/states/state_hello.c:74-95 | hello_write changes the object as the session model says; nothing is sent from an empty buffer |
| Connection.Connection.AuthRead | practica/resolucion-tpe-nash/tpe-protos-main/src/server/states/state_auth.c:4-62 | auth_read consults the credential store, leaves it as it is, and changes the object as the session model says |
| Connection.Connection.AuthWriteAux | practica/resolucion-tpe-nash/tpe-protos-main/src/server/states/state_auth.c:64-92 | auth_write and auth_failed_write change the object as the session model says |
| Connection.Connection.RequestRead | practica/resolucion-tpe-nash/tpe-protos-main/src/server/states/state_request.c:10-91 | request_read, with parsers that work on the buffer and on local arrays, changes the object as the session model says |
| Connection.Connection.RequestWrite | practica/resolucion-tpe-nash/tpe-protos-main/src/server/states/state_request.c:93-121 | request_write changes the object as the session model says; it sends to the client whichever descriptor was writable |
| Connection.Connection.ConnectWrite | practica/resolucion-tpe-nash/tpe-protos-main/src/server/states/state_connect.c:6-97 | the loop over the addresses left ends and changes the object as the session model says |
| Connection.Connection.ResolutionBlock | practica/resolucion-tpe-nash/tpe-protos-main/src/server/states/state_resolve.c:38-64 | resolution_block changes the object as the session model says |
| Connection.Connection.ForwardRead | practica/resolucion-tpe-nash/tpe-protos-main/src/server/states/state_forward.c:16-73 | forward_read changes the object as the relay model says, and its calls to the selector never fail |
| Connection.Connection.ForwardWrite | practica/resolucion-tpe-nash/tpe-protos-main/src/server/states/state_forward.c:75-122 | forward_write changes the object as the relay model says, and its calls to the selector never fail |
| Connection.Connection.Finish | practica/resolucion-tpe-nash/tpe-protos-main/src/server/socks5_handler.c:170-190 | unregisters both descriptors or aborts, as the session model says |
| Connection.Connection.OnEvent | practica/resolucion-tpe-nash/tpe-protos-main/src/server/socks5_handler.c:58-80 | one event on the object is one step of the session model, keeps the session invariant, and leaves the credentials as they were |
| Connection.Connection.OnEvents | practica/resolucion-tpe-nash/tpe-protos-main/src/server/socks5_handler.c:58-80 | a sequence of events on the object is a run of the session model |
| Connection.Serve | practica/resolucion-tpe-nash/tpe-protos-main/src/server/socks5_handler.c:102-168 | over any run of the object the client has got the replies in order and then what the origin sent, and the object is freed once |

## Left out

- HashMap.Table.Insert: keys and values are shorter than 255 bytes, which is what the entry's fields hold with a
  terminator; storage is available and arrives with every slot free; slot numbers are unbounded, where the source keeps
  them in an `int`.
- Selector.Selector.Register: a descriptor equal to the table's size is excluded, because the source then writes past
  the table. The server's table has 1025 slots and every valid descriptor is below 1024.
- Selector.Selector.Unregister: a valid descriptor has a slot, because the source reads the item unchecked.
- Selector.Selector.SetInterest: likewise.
- Selector.Selector.HandleBlockNotifications: the table has the server's 1025 slots, as in HandleIteration.
- Selector.Selector.HandleIteration: the table has the server's 1025 slots, so that no callback makes it move.
  Callbacks are given by their requests to the selector; a missing handler, which the source asserts against, is
  not modelled. The close callback of a descriptor makes no request.
- Credentials.Store.CreateUser: names and passwords are shorter than 255 bytes, as for HashMap.Table.Insert.
- Credentials.CreateAll: likewise.
- Connection.Connection.OnEvents: the credentials are the same at every event; Session leaves them free per event.
- ParserUtils.Strcmpi: patterns are ASCII without zero bytes, where `tolower` and `toupper` are defined.
- ParserUtils.Compare: class tables have the 256 elements that the header asks for.
- Codec.GetIpv6Address: the IPv6 text functions are any pair that round trips.
- Text.Atoi: leading blanks and signs, which a port text never has.
- RequestTheorems.RequestIsStored: the request lies whole in the read buffer. The handshake parsers consume header
  bytes before a message is complete, so a message that arrives in pieces is parsed differently; the session
  invariant covers those runs too.
- LoginTheorems.LoginDecided: the login lies whole in the read buffer.
- Connect.SearchFindsFirst: the address list is assumed to survive the retries, as in SearchTheorems.WholeSearchDecides.
  The source frees it when a connection that has failed is dropped (`socks5_handler.c:88-91`) and then reads the next
  address from it (`state_connect.c:63`).
- Allocation failure, except where a handler's thread cannot be started; lifetimes of strings.
- SIGTERM and SIGINT, which end the server in order.
- Marking descriptors for removal, which the monitor's callbacks do (`selector.c:754-763`): no request of a callback does
  so here, and the sweep takes the marks as it finds them.
- Idle eviction of live sessions: the sweep is modelled on the selector alone.
- A name resolution that ends after its session has closed, and a descriptor number that another connection has taken
  over by then.
- The username kept for metrics and logging, the metrics other than the byte counter, the monitor protocol and its
  client, argument parsing, logging, and the credential files.
- The check in `stm_init` that states are numbered in order: here a state is its position in the table.
