# bosh: a verified model

bosh is a single-threaded broker between HTTP clients and an XMPP server
(XEP-0124). A client posts stanzas over HTTP and has its request held until
stanzas arrive for it or its time is up; the broker keeps one XMPP socket per
session. This project models the broker, its transport and its containers in
Dafny and proves what they keep over whole runs. `dafny verify dfyconfig.toml`
checks everything.

There are three layers. Containers and transport are heap classes, each proved
to follow a value or a function; the broker is a state machine on values together with
a heap version that is proved to take the same steps.

| file | what it holds |
|---|---|
| `Common.dfy` | options, byte strings, concatenation, sequences without repeats |
| `CircularList.dfy` | the circular doubly linked list with its sentinel and stable iterators |
| `Primes.dfy`, `HashTable.dfy` | the growing chained hash table, and what its growth costs over a run |
| `PoolModel.dfy`, `Pool.dfy` | the object pool: its shape over a run, and its ring of stacks on the heap |
| `SocketModel.dfy`, `Sockets.dfy` | the output queue and status machine of a socket, as a value and on the heap |
| `SocketMonitor.dfy` | the registration table and the dispatch of one batch of events |
| `HttpHeader.dfy`, `Numbers.dfy`, `HttpFraming.dfy` | the header parser, `atoi`, and the buffer that turns reads into requests |
| `HttpLinks.dfy` | the socket of an HTTP connection, its answers, and the life of its record |
| `BrokerModel.dfy` | the broker: state, events, one function per handler, runs |
| `BrokerInvariant.dfy`, `BrokerPairing.dfy`, `BrokerLedger.dfy` | what every handler keeps; held connections against close callbacks; every request accounted for |
| `BrokerSockets.dfy`, `BrokerDelivery.dfy` | the XMPP sockets of all sessions, live and over, and the bytes posted to them; stanza delivery to HTTP clients |
| `BrokerAnswers.dfy`, `BrokerEnds.dfy` | what clients are told; exactly which events end a session |
| `BrokerReact.dfy`, `BrokerPromises.dfy` | one machine per session, which the broker is all of side by side; what they add up to: hold time, text, reasons |
| `BrokerTime.dfy`, `BrokerDeadlines.dfy` | the timeout check, and the deadlines every run of the server loop meets |
| `JabberBind.dfy` | the broker on the heap: client records reached from a list, a hash and close callbacks |

What the environment does is arbitrary within stated ranges. `send` answers any
count, would-block or an error; the XML parser yields any sequence of stanzas;
`gen_sid` ends with any sid not in use; the kernel hands out only descriptors
that are not in use; `recv` never delivers more than the space asked for. One
handler takes its clock reading once and runs in no time, and in
`BrokerDeadlines` the poll returns no later than the timeout it was given.

Five promises fail for some inputs, and the exact conditions are proved:

- Pairing of held connections and close callbacks is kept by a request exactly
  when no session other than the one it addresses holds its connection
  (`BrokerPairing.RequestPairingExact`); a possible run that polls for two
  sessions on one connection breaks it (`BrokerPairing.PipeliningDangles`). A client that waits for each
  answer never does that (`BrokerLedger.NoPipeliningPairs`). The ledger needs no
  such assumption.
- Printing then parsing a header is the identity exactly for 1 to 64 fields
  (`HttpHeader.RoundTripExact`): with none, the parser skips the blank line and
  reads the body as fields; beyond 64, the rest is dropped.
- Every request that has arrived is dispatched by the read that completes it
  exactly when no read completes two of them (`HttpFraming.PromptExact`):
  `hc_read` processes one request, and a second one waits for more bytes, as two
  posts in one read show (`HttpFraming.OneLeftBehind`).
- The XMPP socket of a live session is closed exactly when the kernel has refused
  a flush for it, that is, answered an error while bytes were left
  (`BrokerSockets.DeadSocketExact`, `SocketModel.DrainFailsExact`).
  `sock_flush_data` calls nobody then, and the session lingers until a poll that
  terminates it or the timeout check (`BrokerSockets.DeadSocketLingers`);
  `BrokerSockets.DeadSocketHappens` is a run that leads there.
- An HTTP connection record outlives its socket, with nobody left to delete it,
  exactly when the kernel has refused a flush that `hc_read` was not there to see
  (`HttpLinks.OutlivesExact`); an answer from a timeout check can be one
  (`HttpLinks.OutlivingHappens`).

The comment on `list_insert` (`src/list.h:73`) says that it inserts after the
iterator; the code inserts before it, and so does the model.

## Model

| member | source | states |
|---|---|---|
| BrokerPairing.RequestPairingExact | src/jabber_bind.c:516-604 | Handling a request keeps "a session holds connection c exactly when c's close callback points to it" if and only if no session other than the addressed one holds the connection the request came on |
| BrokerPairing.RequestOrphans | src/jabber_bind.c:526-528 | A request on a connection that another session holds takes the close callback away from that session, which is left holding a connection whose end it will not hear of |
| BrokerPairing.PipeliningDangles | src/jabber_bind.c:505-532 | A possible run from the start, two creations and two polls on one connection, ends unpaired; when that connection closes, a session still holds it and has no callback |
| BrokerPairing.RunKeeps | src/jabber_bind.c:243-604 | After every possible run: distinct sids, sound callbacks, sound sockets, exact counters; every session alive and no session holding a request while stanzas wait for it; and, if no request came on a connection held by someone else, holders and callbacks agree |
| BrokerPairing.CountersExact | src/jabber_bind.c:262-263 | `client_count` is the number of live sessions and `max_client_count` the largest number there was after any handler of the run |
| BrokerPairing.StepCounts | src/jabber_bind.c:478-481 | One handler raises the maximum exactly when it leaves more sessions than ever before |
| BrokerPairing.StepWithin | src/jabber_bind.c:200-234 | A handler answers only connections that were held when it started, and the one its request came on |
| BrokerPairing.ClosedNeverAnswered | src/http_server.c:82-106 | If requests come on open connections and pairing holds, no session ever holds a closed connection, and no handler ever answers one |
| BrokerPairing.ClearReleases | src/jabber_bind.c:505-513 | When a connection closes, exactly its holder lets go of it |
| BrokerInvariant.StepKeeps | src/jabber_bind.c:156-604 | Each handler keeps the invariant, leaves the broker quiet, and keeps holders and callbacks paired when no session other than the addressed one holds the connection |
| BrokerInvariant.SetHttpKeeps | src/jabber_bind.c:516-532 | Taking over a connection first answers the request held before with an empty body, keeps the invariant and, under the pairing condition, the pairing, and leaves no request held while stanzas wait |
| BrokerInvariant.CloseKeeps | src/jabber_bind.c:243-271 | Closing a session takes exactly it off the list, leaves every other record as it was and no callback pointing to it |
| BrokerInvariant.ClearKeeps | src/jabber_bind.c:505-513 | The close callback reaches the live session that holds the connection, which lets go of it and stays live; without a callback nothing happens |
| BrokerInvariant.WatchedIsLive | src/jabber_bind.c:243-270 | A session whose XMPP socket is registered is live, so no event reaches a client that is gone |
| BrokerLedger.LedgerBalances | src/jabber_bind.c:213-649 | For every run, on each connection and in total: requests handed in = answers sent + requests held + requests lost to a closing connection |
| BrokerLedger.StepBalance | src/jabber_bind.c:635-649 | Each handler accounts for exactly the request it is given, and every other handler for none |
| BrokerLedger.NoPipeliningPairs | src/http_server.c:341-355 | If every request comes on a connection whose earlier requests are answered, holders and callbacks always agree and no connection has two requests outstanding |
| BrokerLedger.PairedHoldsOnce | src/jabber_bind.c:516-532 | When holders and callbacks agree, no two sessions hold the same connection |
| BrokerDelivery.DeliveryExact | src/jabber_bind.c:156-210 | For every live session of every run: stanzas sent in all bodies, followed by the queue, are exactly the stanzas received, in order; a session holding a request has an empty queue; and its XMPP socket was given exactly the stream header and the posted stanzas, of which a prefix was accepted |
| BrokerDelivery.DeliveredInOrder | src/jabber_bind.c:317-359 | For every session, live or over, the stanzas sent to its client are a prefix of those received for it |
| BrokerDelivery.StepCarries | src/jabber_bind.c:156-359 | One handler adds to a session exactly the stanzas its own event brought; a session that ends has sent its client a prefix of what was due; one that is over sends nothing |
| BrokerDelivery.CreateCarries | src/jabber_bind.c:468-494 | A new session starts with an empty queue and a socket that was given the stream header of its host, and touches no other session |
| BrokerDelivery.UnbornHasNothing | src/jabber_bind.c:402-498 | Nothing was received or posted for a session before it was created |
| BrokerSockets.AcceptedPrefix | src/jabber_bind.c:483-592 | For every session, live or over, the bytes accepted on its XMPP socket are a prefix of the stream header followed by every posted stanza in order, also through the POST that ends it; while the socket is open the queue is exactly the rest; once connected it is read, and writability is asked for when data waits; a session that is over has its socket closed |
| BrokerSockets.SubmittedExact | src/jabber_bind.c:483-592 | For every session, live or over, its socket was given exactly the header and every posted stanza, the last time with `more` cleared |
| BrokerSockets.StepAccepts | src/jabber_bind.c:587-592 | On a poll or on readiness, a handler hands the kernel exactly as many of the pending bytes as its counts say, the stanzas of the poll last; on anything else, none |
| BrokerSockets.ConnectedExact | src/socket.c:202-219 | The socket of a live session is idle if and only if it is closed, and an open one is connected exactly from the first report of readiness on |
| BrokerSockets.StepSocket | src/jabber_bind.c:243-604 | One handler does to the socket of a session exactly what its own event says, closes it if the session ends, and leaves every other socket alone |
| BrokerSockets.DeadSocketExact | src/socket.c:153-168 | The socket of a live session is closed if and only if, in some flush for it, the kernel answered an error while bytes were left |
| BrokerSockets.DeadSocketHappens | src/socket.c:153-168 | A possible run, one creation, a connect and a refused flush, leaves a live session with a closed socket |
| BrokerSockets.BreakExact | src/socket.c:153-168 | The socket of a session that survives a handler breaks in it if and only if the kernel answers that handler's flush with an error while bytes are left |
| BrokerSockets.DeadSocketLingers | src/jabber_bind.c:594-597 | A session whose socket is closed ends only with a poll that terminates it or with a timeout check |
| BrokerAnswers.TerminateIsFinal | src/jabber_bind.c:243-251 | In every run, a session whose client was told that it is terminated is not live, and no later answer or loss belongs to it |
| BrokerAnswers.CloseTells | src/jabber_bind.c:243-271 | Closing a session sends the termination notice to the holder of its request, if there is one, and nothing else; exactly that session goes |
| BrokerAnswers.RejectedExact | src/jabber_bind.c:535-604 | A request is turned away with nothing else changed if and only if: item-not-found, a poll of no live session; host-gone, a complete creation whose parser, name resolution or descriptor fails; bad-request, every other non-GET form |
| BrokerAnswers.CreatedExact | src/jabber_bind.c:402-498 | A session is added if and only if it is asked for in full and parser, name resolution and descriptor are there; the sid in the answer is the one that finds it, it is last in the list and no other session changes |
| BrokerEnds.OverExact | src/jabber_bind.c:243-597 | In every run, a session that was created is over if and only if it was polled with a terminate, its stream ended or broke, its connect failed, its socket had an error, or it was due at a timeout check |
| BrokerEnds.StepEnds | src/jabber_bind.c:243-597 | A handler ends a live session if and only if its event is one of those |
| BrokerReact.StepReacts | src/jabber_bind.c:156-604 | Whatever the event, a handler does to every live session exactly what a machine that knows only that session does: its record afterwards, whether it is over, and every answer on its behalf, in order and with its body and connection |
| BrokerReact.StepSilent | src/jabber_bind.c:156-604 | For a session that is over or not there yet, nothing changes and nothing is said |
| BrokerReact.StepCreates | src/jabber_bind.c:421-494 | A creation starts one session as the request asks, with the hold time in milliseconds and the stream header for its host, and says nothing on its behalf |
| BrokerPromises.WaitExact | src/jabber_bind.c:413-421 | In every run, the hold time of a live session is 1000 times the `wait` of the request that created it |
| BrokerPromises.TextExact | src/jabber_bind.c:168-202 | In every run, the texts of all bodies sent to a client followed by the text of its queue are exactly the text received for it; for a session that is over, the beginning of it |
| BrokerPromises.AnswersHaveReasons | src/jabber_bind.c:156-314 | An empty answer comes only because a newer poll took its place or its time is up; a message only with all stanzas waiting, at once with a poll or when stanzas come in; a notice of termination only when the session is over |
| BrokerPromises.NeverEarly | src/jabber_bind.c:287-293 | In every run, a timeout check answers a held request only when at least the hold time its client asked for has passed since it arrived, on the connection it arrived on |
| BrokerPromises.PollHolds | src/jabber_bind.c:516-532 | A poll that does not terminate is held if and only if no stanza was waiting, and answered at once with all of them otherwise |
| BrokerPromises.StatusExact | src/jabber_bind.c:607-632 | In every run, a GET is answered with the number of live sessions and the largest number there was, and changes nothing else |
| BrokerPromises.HeaderNamesHost | src/jabber_bind.c:47-47 | The stream header names the host between fixed words, and different hosts have different headers |
| BrokerTime.ClosestIsMinimum | src/jabber_bind.c:129-153 | `jb_closest_timeout` is the exact minimum of the session timeout and every client's remaining time |
| BrokerTime.CheckTimeoutExact | src/jabber_bind.c:274-314 | The timeout check acts on a client exactly when its remaining time is not positive: a held request is answered with an empty body, a client without one is closed silently; all others are untouched and in order |
| BrokerTime.ClosestAfterCheck | src/jabber_bind.c:274-314 | After a check the closest timeout at the same clock value is positive if and only if the session timeout is |
| BrokerTime.StepMoves | src/jabber_bind.c:206-530 | A handler stamps exactly the sessions it creates, polls, or sends or loses something for, leaving them at most the request just received; every other session keeps its timestamp, wait and held request |
| BrokerTime.HeldSinceArrival | src/jabber_bind.c:516-532 | A held request is the last one its session was polled with, and the session's timestamp is its arrival time |
| BrokerTime.TimestampExact | src/jabber_bind.c:206-530 | The timestamp of a live session is the time of the last event that created it, polled it, or sent or lost something on its behalf |
| BrokerDeadlines.DeadlinesMet | src/jabber_bind.c:652-679 | In every run of the server loop, no handler starts later than the arrival of a held request plus max(wait, 0), `wait` being what the request that created its session asked for, in milliseconds, nor later than an idle session's last activity in the run plus the timeout, and at the top of the loop everything due has been dealt with |
| BrokerDeadlines.LoopOnTime | src/jabber_bind.c:665-678 | Every handler of every turn starts with no deadline passed, and every turn ends with time left for every session |
| BrokerDeadlines.WaitingIsOnTime | src/jabber_bind.c:667-674 | A poll bounded by the closest timeout returns with no deadline passed |
| JabberBind.JabberBind.HandleCallback | src/jabber_bind.c:156-604 | A callback that reaches its handler finds a live client or connection and is an event the model allows; the heap stays valid (each client in the list once at its own iterator, the sid hash exactly the live clients, counters, callbacks and answers as in the model), every client that is gone keeps a closed socket, and the heap takes exactly the step of the state machine, so that its state is that of a possible run |
| JabberBind.JabberBind.Dispatch | src/socket_monitor.c:174-181 | An entry of a batch reaches its handler if and only if its socket is still open, and for data connected, whatever became of the object its user data points to; if not, nothing changes |
| JabberBind.JabberBind.ClientPromises | src/jabber_bind.c:92-103 | In the record of every live client, in the history of the broker: delivered stanzas followed by its queue are those received, also in the text sent; a prefix of what was posted has been accepted, and its socket is read once connected; its hold time is the one it asked for, and its timestamp is its last activity |
| JabberBind.JabberBind.ConnectionPromises | src/http_server.c:341-355 | For every connection: requests that came on it in the history of the broker are the answers handed to it, plus those held, plus those lost |
| JabberBind.JabberBind.constructor | src/jabber_bind.c:728-738 | A new broker is valid, with an empty list and hash of its own and an empty history |
| JabberBind.JabberBind.CloseClient | src/jabber_bind.c:243-271 | Closing a client on the heap answers its request, closes its socket, takes it off the list at its stored iterator, off the hash and off the count, and follows the model |
| JabberBind.JabberBind.FlushMessages | src/jabber_bind.c:156-210 | The flush on the heap sends the joined stanzas and lets go of the connection exactly when there is a request and something queued |
| JabberBind.JoinStanzas | src/jabber_bind.c:168-191 | The two passes fill the buffer exactly with the concatenation of the serialised stanzas and a terminating zero |
| JabberBind.JabberBind.DropRequest | src/jabber_bind.c:213-234 | The drop on the heap follows the model |
| JabberBind.JabberBind.SetHttp | src/jabber_bind.c:516-532 | Taking over a connection on the heap follows the model |
| JabberBind.JabberBind.ClearHttp | src/jabber_bind.c:505-513 | The close callback of a connection, run on the client it points to, follows the model |
| JabberBind.JabberBind.ConnectionClosed | src/http_server.c:82-90 | Closing a connection runs its callback if there is one, on a live client, and unregisters it |
| JabberBind.JabberBind.AnswerRequest | src/http_server.c:341-355 | An answer goes to the connection once and clears its close callback |
| JabberBind.JabberBind.Accept | src/http_server.c:113-138 | A new HTTP connection starts open, without a callback, and disturbs nothing |
| JabberBind.JabberBind.ReadLoop | src/jabber_bind.c:345-349 | The read loop queues every normal stanza of every chunk, in order |
| JabberBind.JabberBind.HandleStanza | src/jabber_bind.c:317-335 | One stanza is queued, ends the session's life or is ignored |
| JabberBind.JabberBind.ReadJabber | src/jabber_bind.c:338-359 | Reading, flushing and closing on the heap follow the model |
| JabberBind.JabberBind.XmppReady | src/jabber_bind.c:388-399 | The end of a connect and a writable socket follow the model |
| JabberBind.JabberBind.SendStanzas | src/jabber_bind.c:587-592 | All stanzas of a POST go to the XMPP socket in order, followed by a flush |
| JabberBind.JabberBind.PollSession | src/jabber_bind.c:584-597 | A poll on the heap follows the model |
| JabberBind.JabberBind.ConnectClient | src/jabber_bind.c:402-498 | Creating a session on the heap follows the model, including every error branch |
| JabberBind.JabberBind.AddSession | src/jabber_bind.c:468-485 | A new client enters list, hash and counters together |
| JabberBind.JabberBind.LookUp | src/jabber_bind.c:577-578 | The sid hash finds exactly the client with that sid |
| JabberBind.JabberBind.HandlePost | src/jabber_bind.c:535-604 | A POST on the heap follows the model |
| JabberBind.JabberBind.HandleRequest | src/jabber_bind.c:635-649 | A request on the heap follows the model |
| JabberBind.JabberBind.ClosestTimeout | src/jabber_bind.c:129-153 | The loop over the list computes the closest timeout of the model |
| JabberBind.JabberBind.Scan | src/jabber_bind.c:286-304 | The scan answers overdue requests and collects exactly the idle sessions, each once, in list order |
| JabberBind.JabberBind.CloseExpired | src/jabber_bind.c:306-310 | The closing loop closes every collected session exactly once, none of them gone before its turn |
| JabberBind.JabberBind.CheckTimeout | src/jabber_bind.c:274-314 | The timeout check on the heap follows the model |
| JabberBind.JabberBind.CloseEverything | src/jabber_bind.c:742-750 | Deleting the broker ends every session, leaves no callback behind, and leaves the socket of every client there ever was closed |
| SocketModel.RunDelivers | src/socket.c:140-344 | Over any operations and any answers of `send`: bytes accepted are a prefix of bytes submitted; while the socket is open the queue is exactly the rest; a connected socket with a nonempty queue whose last send had more == 0 has asked for writability |
| SocketModel.DrainConserves | src/socket.c:145-176 | A flush loses, repeats and reorders no byte, and only the head of the remaining queue can be partly sent |
| SocketModel.DrainCompletes | src/socket.c:145-176 | If every send takes something, the queue is empty after at most as many sends as there are bytes, and all of it was sent in order |
| SocketModel.DrainFailsExact | src/socket.c:153-169 | A flush fails if and only if the kernel answers an error, after taking something each time before, while bytes are left |
| SocketModel.DrainTakes | src/socket.c:145-176 | A flush hands over exactly the sum of the kernel's counts, none above what was offered, up to the first answer that takes nothing, from the front of what is pending; no finished item stays at the head |
| SocketModel.FlushExact | src/socket.c:140-183 | A flush hands over what the counts say, closes the socket if and only if the kernel refuses while bytes are left, and otherwise changes only the queue and the wish to write |
| SocketModel.SendExact | src/socket.c:333-344 | A send offers the kernel everything pending with its own bytes last if the socket is connected and no more is announced, and only queues them otherwise |
| SocketModel.WritableExact | src/socket.c:202-223 | Readiness connects a connecting socket unless there was an error, and flushes a connected one |
| SocketModel.WantDataKeepsOk | src/socket.c:434-443 | Asking for data is remembered, and turns EPOLLIN on at once if the socket is connected |
| SocketModel.ReceiveKeepsOk | src/socket.c:306-326 | The end of the stream and errors close the socket; data and would-block leave it alone |
| SocketModel.UnwantedKeepsOk | src/socket.c:235-242 | Input that nobody asked for turns EPOLLIN off, and nothing else does |
| SocketModel.FlushKeepsOk | src/socket.c:140-183 | A flush that keeps the socket open leaves EPOLLOUT set exactly when the queue is nonempty |
| SocketModel.RunKeepsOk | src/socket.c:113-344 | The socket invariant holds after any run of operations, and the bytes submitted are the bytes given to `sock_send` |
| SocketModel.SendKeepsOk | src/socket.c:333-344 | A send keeps the invariant and submits its buffer after everything submitted before |
| Sockets.Socket.FlushData | src/socket.c:140-183 | The flush loops on the heap follow the model; the kernel's mask for the descriptor is the record's while the socket stays open, and a failed flush unregisters it |
| Sockets.Socket.OfferHead | src/socket.c:153-169 | The inner loop ends, hands over exactly what the kernel's counts say of the head item and leaves the rest of it, and does to the flush what the model says for the answers it used up |
| Sockets.Socket.Pump | src/socket.c:145-176 | Both loops end, leave the queue of the model, and hand over exactly the first pending bytes the kernel's counts say |
| Sockets.Socket.Send | src/socket.c:333-344 | A send on the heap follows the model and accounts for the registration in the same way |
| Sockets.Socket.Close | src/socket.c:113-130 | A close unregisters the record, which loses its callback, touches no other descriptor, empties the queue and follows the model |
| Sockets.Socket.OnEvent | src/socket.c:186-248 | An event on the heap follows the model, accounts for the registration and ends with the callback the source calls |
| Sockets.Socket.Receive | src/socket.c:306-326 | A receive closes and unregisters the socket at its end and on errors, and follows the model |
| Sockets.Socket.SetDataCallback | src/socket.c:434-443 | The callback is kept, and EPOLLIN is on in the record and in the kernel if the socket is connected |
| Sockets.Socket.Connect | src/socket.c:292-297 | A dialled socket has the given descriptor, registered for writability |
| Sockets.Socket.Accept | src/socket.c:402-423 | An accepted socket has the given descriptor, registered, connected and quiet |
| SocketMonitor.Monitor.Poll | src/socket_monitor.c:164-185 | Whatever callbacks add or remove in the middle of a batch, every record the loop follows is in the table, only registered ones are called, and the table stays sound: one record a descriptor, mask as told to epoll, `socket_count` the number of set callbacks |
| SocketMonitor.CalledExact | src/socket_monitor.c:174-181 | An entry of a batch has its callback called if and only if its descriptor is still registered after everything the callbacks before it did |
| SocketMonitor.Monitor.Dispatch | src/socket_monitor.c:177-180 | A callback runs on a registered record, and whatever it does keeps the table |
| SocketMonitor.Monitor.AddSocket | src/socket_monitor.c:91-119 | Registering reuses the record of a descriptor seen before, and tells epoll exactly its mask |
| SocketMonitor.Monitor.AddEvents | src/socket_monitor.c:121-135 | The mask grows by the events, in the record and in epoll alike, although epoll is told only of news |
| SocketMonitor.Monitor.DelEvents | src/socket_monitor.c:137-146 | The mask loses the events, in the record and in epoll alike |
| SocketMonitor.Monitor.DelSocket | src/socket_monitor.c:148-162 | The record stays, without callback and events, and epoll forgets the descriptor |
| HttpFraming.CutsDoNotMatter | src/http_server.c:150-240 | However a stream of well-formed requests is cut into reads, the requests dispatched are the first of the stream with their exact headers and bodies, the buffer is exactly the bytes received and not consumed, and there is always room to read more |
| HttpFraming.TwoCuts | src/http_server.c:207-232 | Two ways to cut the same bytes dispatch requests of which one list begins the other, and leave the same buffer if they are equally many |
| HttpFraming.PromptExact | src/http_server.c:230-233 | After every read all complete requests have been dispatched if and only if no read completes two |
| HttpFraming.NeverAhead | src/http_server.c:179-203 | The requests dispatched are never more than have wholly arrived |
| HttpFraming.OneLeftBehind | src/http_server.c:225-233 | Two well-formed posts delivered in one read: the first is dispatched and the second stays in the buffer |
| HttpFraming.TooBigForGood | src/http_server.c:172-176 | Once a message is reported as too big, every later read reports it again and only adds to the buffer |
| HttpFraming.ReadOne | src/http_server.c:150-240 | One read dispatches the first outstanding request if and only if its last byte has arrived, and consumes that request's bytes and no others |
| HttpFraming.ProcessExact | src/http_server.c:150-204 | A message whose header and body reach the limit is too big; any other is dispatched exactly when all of it is there, and its bytes are removed |
| HttpFraming.AnnouncedLength | src/http_server.c:157-163 | The length read from a header is `n` if and only if its first Content-Length field stands for `n` in decimal notation, or there is none and `n` is zero |
| HttpFraming.ZeroHides | src/http_server.c:222-228 | Bytes after a zero before the end of a header are never parsed, so nothing is dispatched |
| Numbers.AtoiExact | src/http_server.c:162-162 | A string is read as `n` if and only if it is white space, perhaps a sign, decimal digits that stand for the size of `n`, and something else |
| Numbers.DecimalReads | src/http_server.c:162-162 | The decimal notation of every number is read back, after white space and a sign, whatever but a digit follows |
| HttpFraming.CompleteHead | src/http_server.c:165-168 | Whatever follows a well-formed header, it is parsed to the same fields and found to end where it ends |
| HttpFraming.IncompleteHead | src/http.c:93-98 | Any proper prefix of a well-formed header is recognised as incomplete |
| HttpFraming.BlankLineOnce | src/http.c:93-98 | The end-of-header mark occurs at the end of the printed lines only, and two line feeds never follow each other |
| HttpFraming.RequestBuffer.Read | src/http_server.c:207-240 | A read into the fixed buffer, with its terminating zero and its memmove, is the read of the specification, and the size never exceeds the limit |
| HttpFraming.RequestBuffer.ProcessRequest | src/http_server.c:150-204 | Processing in the buffer dispatches the body, drops the header and keeps the rest, reports a message that is too big, or waits, as the specification says |
| HttpFraming.RequestBuffer.Discard | src/http_server.c:195-202 | The move to the front keeps exactly the bytes after the request |
| HttpFraming.RequestBuffer.Append | src/http_server.c:216-223 | Received bytes go after those already there, followed by a zero |
| HttpLinks.OutlivesExact | src/http_server.c:207-249 | In every run of one connection, its record outlives its socket if and only if the kernel refused a flush outside `hc_read`; the bytes accepted are a prefix of the answers given, in order; while the socket is open the queue is the rest and EPOLLIN is on |
| HttpLinks.StepKeepsLink | src/http_server.c:82-106 | One operation keeps the socket invariant, submits exactly its answers, leaves a record behind exactly if its flush is refused unseen, and deletes it exactly on an error, the end of input, or an answer refused during a read |
| HttpLinks.AnswerExact | src/http_server.c:341-350 | One answer hands the kernel what its counts say of everything pending with head and body last, and breaks the socket if and only if it is refused |
| HttpLinks.OutlivingHappens | src/http_server.c:341-355 | One refused answer, given outside `hc_read`, leaves a record without a socket |
| HttpHeader.RoundTripExact | src/http.c:85-156 | Parsing what was printed gives back method, path and fields, whatever bytes follow, if and only if there are 1 to 64 fields |
| HttpHeader.PrintThenParse | src/http.c:85-156 | For any positive number of fields, the first 64 come back, in order, whatever bytes follow |
| HttpHeader.FieldsReadBack | src/http.c:124-147 | The field loop reads back printed fields, as many as it has room for, whatever comes before and after |
| HttpHeader.NoFieldsReadsBody | src/http.c:108-111 | With no field, the blank line is skipped as white space and the body is read as the fields |
| HttpHeader.LineSplits | src/http.c:104-109 | A printed request line splits into its method, its path and something |
| HttpHeader.LineThenParse | src/http.c:93-155 | Any line before printed fields, whatever bytes follow, is parsed to its first two pieces and the fields if it has three pieces, and refused otherwise |
| HttpHeader.ShortRefused | src/http.c:105-114 | A request line of fewer than three pieces is refused, with or without blanks at its end |
| HttpHeader.GapsIgnored | src/http.c:58-65 | The width of the gaps in the request line makes no difference |
| HttpHeader.BareFieldStep | src/http.c:126-146 | A field line may end with a bare line feed |
| HttpHeader.ParseHeader | src/http.c:85-156 | The loops of the parser compute the parse of the specification |
| HttpHeader.StrSplit | src/http.c:52-68 | The pointer loops cut the bytes before the end into pieces as specified |
| HttpHeader.ReadFields | src/http.c:124-147 | The field loop with its fail flag computes the fields of the specification |
| HttpHeader.StrStrAny | src/http.c:71-82 | The search stops at the first end-of-line byte |
| HttpHeader.LookUpField | src/http.c:173-182 | The value found is that of the first field with exactly that name; nothing is found only if there is none |
| HashTable.Table.Insert | src/hash.h:122-136 | A node is added and nothing else changes, even when keys repeat; with unique keys the map gains exactly that entry; the load grows as in `Primes` |
| HashTable.Table.Resize | src/hash.h:91-115 | A resize moves links only: the same nodes, each in bucket hash mod the new size, in acyclic and disjoint chains |
| HashTable.Table.MoveBucket | src/hash.h:106-112 | Emptying a bucket moves each of its nodes once to the new table |
| HashTable.Table.InsertNoResize | src/hash.h:79-88 | A node goes to the front of its own bucket |
| HashTable.Table.FindPrevNode | src/hash.h:143-157 | The place found leads to the first node of the bucket with that key; none is found only if no node has it |
| HashTable.Table.EraseNextNode | src/hash.h:163-178 | Exactly the node after the given place leaves the table |
| HashTable.Table.Find | src/hash.h:184-194 | With unique keys, find is the lookup of the map |
| HashTable.Table.Erase | src/hash.h:201-212 | At most one node goes; with unique keys, exactly that key leaves the map and its value is returned |
| HashTable.Table.Clear | src/hash.h:215-223 | All nodes go and the table keeps its size |
| HashTable.Table.HasKey | src/hash.h:233-236 | True exactly for keys of the table |
| HashTable.Table.ElementCount | src/hash.h:239-241 | The number of nodes, hence of entries when keys are unique |
| HashTable.Table.InsertReplace | src/hash.h:249-266 | With unique keys, the map is updated at that key and the old value returned |
| HashTable.Table.Iterate | src/hash.h:272-283 | Every node is visited exactly once |
| Primes.GrowthIsAmortised | src/hash.h:91-136 | Over any run of inserts, erases and clears: elements never outnumber buckets between operations, and all resizes together relink at most three nodes per insert |
| Primes.ScanStops | src/hash.h:101-101 | The prime scan stops inside the table if and only if the count is at most the last prime |
| Primes.InsertKeepsLoad | src/hash.h:97-103 | An insert moves the table up by exactly one prime when it would be over-full and not at all otherwise, and the move has been paid for |
| Primes.PaidBound | src/hash.h:26-33 | All moves up to a size cost at most three times the inserts that forced the last one |
| Pool.Pool.Alloc | src/allocator.h:52-79 | Never returns a live object; free and live objects partition the pool; a batch is obtained only when no object is free; forward from the cursor the ring stays one current block, then empty blocks, then full ones |
| Pool.Pool.Free | src/allocator.h:81-99 | Exactly that object stops being live; a block is added only when every block is full; the ring keeps its shape |
| Pool.Pool.StepBack | src/allocator.h:65-67 | Going back finds a full block if there is one, and keeps the shape |
| Pool.Pool.StepForward | src/allocator.h:83-85 | Going forward finds an empty block if there is one, and keeps the shape |
| Pool.Pool.AddBlock | src/allocator.h:86-95 | The new block joins the ring right before the current one and becomes current |
| Pool.Pool.Refill | src/allocator.h:68-74 | The batch comes only when nothing is free and lands whole in the current block |
| PoolModel.MemoryBounded | src/allocator.h:52-99 | Over any run, for any object size: objects obtained are at most the peak of live objects plus a batch less one, and (blocks - 1) * 4096 is less than the objects obtained |
| PoolModel.AllocStep | src/allocator.h:43-45 | The batch is between 1 and 4096 objects, one object less is below 128 KiB, and the batch reaches 128 KiB when it is below 4096 |
| PoolModel.AllocSound | src/allocator.h:64-75 | Exactly one batch is obtained if no object is free and none otherwise; one more object is live; no block is added after the first |
| PoolModel.FreeSound | src/allocator.h:81-96 | One block is added if all blocks are full and none otherwise; one more object is free and one less is live |
| PoolModel.RunSound | src/allocator.h:52-99 | Conservation and both bounds hold after any run |
| CircularList.List.Insert | src/list.h:74-85 | The value goes right before the iterator, in a new node; all other nodes stay where and what they are |
| CircularList.List.Erase | src/list.h:91-99 | Exactly that node goes and its value is returned |
| CircularList.List.PushBack | src/list.h:102-104 | The value becomes the last of the sequence |
| CircularList.List.PushFront | src/list.h:112-114 | The value becomes the first of the sequence |
| CircularList.List.PopFront | src/list.h:117-119 | The first value is returned and removed |
| CircularList.List.PopBack | src/list.h:107-109 | The last value is returned and removed |
| CircularList.List.Front | src/list.h:122-124 | The first value |
| CircularList.List.Back | src/list.h:127-129 | The last value |
| CircularList.List.IsEmpty | src/list.h:64-66 | True exactly for the empty sequence |
| CircularList.List.IsSingle | src/list.h:69-71 | True exactly for at most one element |
| CircularList.List.Clear | src/list.h:155-163 | The list ends up empty and the delete callback sees every value once, in order |
| CircularList.List.Find | src/list.h:183-192 | The first node accepted, or the end if none is |
| CircularList.List.Size | src/list.h:195-202 | The length of the sequence |
| CircularList.List.InsertAndErase | src/list.h:74-99 | `list_insert` and then `list_erase` of the iterator it returned leave every node, its place and its value as before |

## Left out

- Time inside a handler: each handler reads the clock once and takes no time; the source calls `get_time` again at each answer.
- BrokerDeadlines.DeadlinesMet: `jb_run` is modelled on values, as rounds of one poll and its handlers; stopping on a signal is not part of this model.
- JabberBind.JabberBind.HandleCallback: the XMPP socket of a client is the value that class `Sockets.Socket` is proved to follow, not an object of that class; that a record is registered exactly while its socket is open is proved there (`Accounted`) and is what `Registered` stands for here. The callbacks passed to a socket are the cases of `Callback`.
- The output queues, the list `to_close` and the HTTP connection list are sequences; the client list and the sid hash are the heap containers.
- JabberBind.JabberBind.Accept: an HTTP connection record stays in the set of known connections after it has closed, and a number names one connection only; the reuse of its memory is not modelled.
- `HttpConnection` is split in two: its callback and answers are in `JabberBind`, its buffer and header in `HttpFraming.RequestBuffer`.
- Nodes of lists and hash tables are allocated with `new` and never freed; `Pool` is proved on its own. In `Pool` an object is named by a number, and freeing an object that is not live is a precondition.
- The text of answers other than the joined stanzas: bodies are cases of a datatype, and the wrapping elements, HTTP response heads and the status page with its uptime are not part of this model.
- HttpFraming.CutsDoNotMatter: well-formed requests only, as the parser understands them: CR LF line ends, 1 to 64 fields, no zero byte in the header, a first Content-Length field that stands for the length of the body (or none and no body), and header plus body below the buffer limit. What a field line without a colon reads is not stated.
- HttpFraming.RequestBuffer.ProcessRequest: a header that ends only in two bare line feeds, or a negative Content-Length, makes the source compute with a null pointer or a negative size; the model does nothing then. `atoi` does not overflow.
- HttpFraming.TooBigForGood: when the buffer is full the next read of the source asks for no bytes, gets none and closes the connection; the buffer model has no socket and ends with the full buffer.
- HttpHeader.StrStrAny: the source runs past the string when no end-of-line byte is there; its only caller has checked that there is one, and the model requires it.
- HashTable.Table.Insert: at most 4294967291 elements, the last prime; beyond it the scan of the source leaves the table. Loop indexes do not overflow.
- That the numbers in the table of sizes are prime, which no result needs; any hash function of the right type will do.
- The order of nodes with equal keys: a resize reverses it, and map behaviour is claimed for unique keys only, which every caller keeps.
- SocketMonitor.Monitor.Poll: a descriptor closed and handed out again within one batch may receive an event meant for its predecessor, as in the source; only that the called record is registered is claimed. A callback is the list of things it does to the table.
- BrokerAnswers.RejectedExact: a `connect` that fails at once, after the descriptor was made, is not part of the model; `sock_delete` reaches `sm_del_socket` with a null record there (`src/socket.c:285-290`, `src/socket.c:116-117`).
- Listening sockets and `sock_listen`; a socket starts after a successful connect or accept.
- HttpLinks.OutlivesExact: the connection is modelled on its own, with its answers as inputs; the broker takes every answer as sent. A record left behind is deleted by `hs_delete` only, which is not part of that model.
- `MSG_MORE` and other flags of `send`, which change nothing the model shows.
- `gen_sid` is any sid not in use; that the random retries end is not provable.
- The request id (`rid`) is stored but never checked by the source; nothing is said about it.
- The XML library, logging, configuration, signals, `main` and leaked strings.
